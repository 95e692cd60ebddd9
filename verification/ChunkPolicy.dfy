/** The chunk policy's pool: which chunks are in use, and how many per zone. */
module ChunkPool {
  import opened Types
  import opened Counting
  import opened LruSpec

  datatype Pool = Pool(inUse: seq<seq<bool>>, live: seq<nat>)

  predicate IsTrue(b: bool) {
    b
  }

  predicate InUse(p: Pool, l: Loc) {
    l.zone < |p.inUse| && l.chunk < |p.inUse[l.zone]| && p.inUse[l.zone][l.chunk]
  }

  /** The list holds each in-use chunk exactly once, and the counters count them. */
  ghost predicate Tracked(p: Pool, keys: seq<Loc>, maxChunks: nat) {
    && |p.inUse| == |p.live|
    && (forall z :: 0 <= z < |p.inUse| ==> |p.inUse[z]| == maxChunks && p.live[z] == Count(p.inUse[z], IsTrue))
    && NoDup(keys)
    && (forall l: Loc :: l in keys <==> InUse(p, l))
  }

  function Fresh(n: nat, maxChunks: nat): Pool {
    Pool(seq(n, _ => seq(maxChunks, _ => false)), seq(n, _ => 0))
  }

  function Mark(p: Pool, l: Loc): Pool
    requires l.zone < |p.inUse| == |p.live| && l.chunk < |p.inUse[l.zone]|
  {
    Pool(p.inUse[l.zone := p.inUse[l.zone][l.chunk := true]], p.live[l.zone := p.live[l.zone] + 1])
  }

  function Unmark(p: Pool, l: Loc): Pool
    requires l.zone < |p.inUse| == |p.live| && l.chunk < |p.inUse[l.zone]| && p.live[l.zone] > 0
  {
    Pool(p.inUse[l.zone := p.inUse[l.zone][l.chunk := false]], p.live[l.zone := p.live[l.zone] - 1])
  }

  lemma FreshTracked(n: nat, maxChunks: nat)
    ensures Tracked(Fresh(n, maxChunks), [], maxChunks)
  {
    CountZero(seq(maxChunks, _ => false), IsTrue);
    forall z | 0 <= z < n ensures Count(Fresh(n, maxChunks).inUse[z], IsTrue) == 0 {
      CountZero(Fresh(n, maxChunks).inUse[z], IsTrue);
    }
  }

  lemma MarkTracked(p: Pool, keys: seq<Loc>, maxChunks: nat, l: Loc)
    requires Tracked(p, keys, maxChunks) && l.zone < |p.inUse| && l.chunk < maxChunks && !InUse(p, l)
    ensures Tracked(Mark(p, l), keys + [l], maxChunks)
  {
    CountUpdate(p.inUse[l.zone], l.chunk, true, IsTrue);
    forall k: Loc ensures InUse(Mark(p, l), k) <==> InUse(p, k) || k == l {
    }
  }

  lemma LivePositive(p: Pool, keys: seq<Loc>, maxChunks: nat, l: Loc)
    requires Tracked(p, keys, maxChunks) && InUse(p, l)
    ensures p.live[l.zone] > 0
  {
    CountZero(p.inUse[l.zone], IsTrue);
    assert IsTrue(p.inUse[l.zone][l.chunk]);
  }

  lemma UnmarkTracked(p: Pool, keys: seq<Loc>, maxChunks: nat)
    requires Tracked(p, keys, maxChunks) && keys != []
    ensures InUse(p, keys[0]) && p.live[keys[0].zone] > 0
    ensures Tracked(Unmark(p, keys[0]), keys[1..], maxChunks)
  {
    var l := keys[0];
    assert l in keys;
    LivePositive(p, keys, maxChunks, l);
    CountUpdate(p.inUse[l.zone], l.chunk, false, IsTrue);
    assert keys == [l] + keys[1..];
    forall k: Loc ensures InUse(Unmark(p, l), k) <==> InUse(p, k) && k != l {
    }
    forall k: Loc ensures k in keys[1..] <==> k in keys && k != l {
    }
  }

  lemma TouchTracked(p: Pool, keys: seq<Loc>, maxChunks: nat, l: Loc)
    requires Tracked(p, keys, maxChunks)
    ensures Tracked(p, Touch(keys, l), maxChunks)
  {
    TouchKeeps(keys, l);
  }

  /** A zone has no live chunk exactly when none of its chunks is in use. */
  lemma DeadZone(p: Pool, keys: seq<Loc>, maxChunks: nat, z: nat)
    requires Tracked(p, keys, maxChunks) && z < |p.inUse|
    ensures p.live[z] == 0 <==> forall c :: 0 <= c < maxChunks ==> !p.inUse[z][c]
  {
    CountZero(p.inUse[z], IsTrue);
  }

  // ---------- the list never holds more chunks than there are ----------

  /** Distinct numbers below `n` are at most `n`. */
  lemma {:induction false} Pigeonhole(s: seq<nat>, n: nat)
    requires NoDup(s) && forall x :: x in s ==> x < n
    ensures |s| <= n
    decreases n
  {
    if s != [] {
      assert s[0] in s;
      var last: nat := n - 1;
      if last in s {
        WithoutKeeps(s, last);
        Pigeonhole(Without<nat>(s, last), last);
      } else {
        Pigeonhole(s, last);
      }
    }
  }

  function Number(l: Loc, maxChunks: nat): nat {
    l.zone * maxChunks + l.chunk
  }

  lemma NumberBound(l: Loc, n: nat, maxChunks: nat)
    requires l.zone < n && l.chunk < maxChunks
    ensures Number(l, maxChunks) < n * maxChunks
  {
    NextMultiple(l.zone, n, maxChunks);
  }

  lemma NumberInjective(a: Loc, b: Loc, maxChunks: nat)
    requires a.chunk < maxChunks && b.chunk < maxChunks && a != b
    ensures Number(a, maxChunks) != Number(b, maxChunks)
  {
    if a.zone < b.zone {
      NextMultiple(a.zone, b.zone, maxChunks);
    } else if b.zone < a.zone {
      NextMultiple(b.zone, a.zone, maxChunks);
    }
  }

  /** In every reachable state the list is no longer than the number of chunks on disk. */
  lemma ListFits(p: Pool, keys: seq<Loc>, maxChunks: nat)
    requires Tracked(p, keys, maxChunks)
    ensures |keys| <= |p.inUse| * maxChunks
  {
    var numbers := seq(|keys|, i requires 0 <= i < |keys| => Number(keys[i], maxChunks));
    forall i | 0 <= i < |keys| ensures numbers[i] < |p.inUse| * maxChunks {
      assert keys[i] in keys;
      NumberBound(keys[i], |p.inUse|, maxChunks);
    }
    forall i, j | 0 <= i < j < |keys| ensures numbers[i] != numbers[j] {
      assert keys[i] in keys && keys[j] in keys;
      NumberInjective(keys[i], keys[j], maxChunks);
    }
    Pigeonhole(numbers, |p.inUse| * maxChunks);
  }
}

/** The chunk policy: a chunk LRU list, the pool, and a heap of full zones by live chunks. */
module ChunkPolicy {
  import opened Types
  import opened LruSpec
  import opened ChunkPool
  import LruList
  import opened MinHeap

  class Policy {
    const maxChunks: nat
    const lru: LruList.List<Loc>
    const heap: Heap
    var pool: Pool
    var entry: seq<Entry?>      // each zone's handle in the heap, kept after extraction

    ghost function Repr(): set<object>
      reads heap
    {
      {this, lru, heap, heap.arr} + heap.all
    }

    /** The zone's own entry is in the heap. */
    ghost predicate InHeap(z: nat)
      reads this, heap
    {
      z < |entry| && entry[z] != null && entry[z] in heap.Live()
    }

    /** The policy's objects are those it had, or new ones. */
    twostate predicate Grew()
      reads heap
    {
      (forall e :: e in heap.all ==> e in old(heap.all) || fresh(e)) && (heap.arr == old(heap.arr) || fresh(heap.arr))
    }

    /** The heap's objects are the ones it had. */
    twostate predicate SameHeap()
      reads heap
    {
      heap.arr == old(heap.arr) && heap.all == old(heap.all)
    }

    /** The zones in the heap. */
    ghost function HeapZones(): set<nat>
      reads this, heap
    {
      set z | 0 <= z < |entry| && InHeap(z)
    }

    /** Handles point at their own zones, and a heap entry's priority is its zone's live count. */
    ghost predicate Indexed()
      reads this, heap, heap.all
    {
      && |entry| == |pool.live|
      && (forall z :: 0 <= z < |entry| && entry[z] != null ==> entry[z] in heap.all && entry[z].data == z)
      && (forall e :: e in heap.Live() ==> e.data < |entry| && entry[e.data] == e && e.priority == pool.live[e.data])
    }

    ghost predicate Valid()
      reads Repr()
    {
      lru.Valid() && heap.Valid() && Tracked(pool, lru.Keys(), maxChunks) && Indexed()
    }

    constructor (numZones: nat, maxChunks: nat)
      requires 1 <= numZones
      ensures Valid() && fresh(Repr()) && this.maxChunks == maxChunks
      ensures pool == Fresh(numZones, maxChunks) && lru.Keys() == [] && |entry| == numZones
      ensures HeapZones() == {}
    {
      this.maxChunks := maxChunks;
      lru := new LruList.List();
      heap := new Heap(numZones);
      pool := Fresh(numZones, maxChunks);
      entry := seq(numZones, _ => null);
      new;
      FreshTracked(numZones, maxChunks);
    }

    /** `zn_policy_chunk_update` for a read. */
    method Read(l: Loc)
      requires Valid()
      modifies lru
      ensures Valid() && lru.Keys() == Touch(old(lru.Keys()), l)
    {
      TouchTracked(pool, lru.Keys(), maxChunks, l);
      lru.Use(l);
    }

    /**
     * `zn_policy_chunk_update` for a write: the chunk comes into use at the tail of the
     * list; with the zone's last chunk the zone enters the heap, under a new handle.
     */
    method Write(l: Loc)
      requires Valid() && l.zone < |pool.inUse| == |pool.live| && l.chunk < |pool.inUse[l.zone]| == maxChunks
      requires !InUse(pool, l) && l.zone !in HeapZones()
      modifies Repr()
      ensures Valid() && Grew()
      ensures pool == Mark(old(pool), l) && lru.Keys() == old(lru.Keys()) + [l] && |entry| == |old(entry)|
      ensures HeapZones() == old(HeapZones()) + (if l.chunk + 1 == maxChunks then {l.zone} else {})
    {
      MarkTracked(pool, lru.Keys(), maxChunks, l);
      pool := Mark(pool, l);
      lru.PushTail(l);
      if l.chunk == maxChunks - 1 {
        EnterHeap(l.zone);
      }
    }

    /** A filled zone enters the heap, under a new handle. */
    method EnterHeap(z: nat)
      requires heap.Valid() && Indexed() && z < |entry| && z !in HeapZones()
      modifies this`entry, heap, heap.arr, heap.all`index
      ensures heap.Valid() && Indexed() && Grew() && |entry| == |old(entry)|
      ensures HeapZones() == old(HeapZones()) + {z}
    {
      var e := heap.Insert(z, pool.live[z]);
      entry := entry[z := e];
    }

    /**
     * One round of the eviction loop: the least recently used chunk goes out of use, and
     * its zone's heap priority follows. The handle may be null (the zone never filled) or
     * stale (the zone was reset since it last filled); the heap is then left alone.
     */
    method EvictOldest() returns (l: Loc)
      requires Valid() && lru.Keys() != []
      modifies Repr()
      ensures Valid() && SameHeap()
      ensures l == old(lru.Keys())[0] && lru.Keys() == old(lru.Keys())[1..]
      ensures InUse(old(pool), l) && |old(pool).inUse| == |old(pool).live| && old(pool).live[l.zone] > 0
      ensures pool == Unmark(old(pool), l)
      ensures |entry| == |old(entry)| && HeapZones() == old(HeapZones())
    {
      UnmarkTracked(pool, lru.Keys(), maxChunks);
      l := lru.PopHead();
      pool := Unmark(pool, l);
      var r := heap.UpdateByEntry(entry[l.zone], pool.live[l.zone]);
    }

    /** Takes a zone with the fewest live chunks off the heap; its handle becomes stale. */
    method PopFewest() returns (z: int)
      requires Valid()
      modifies Repr()
      ensures SameHeap()
      ensures Valid() && pool == old(pool) && lru.Keys() == old(lru.Keys()) && entry == old(entry)
      ensures z == -1 <==> old(HeapZones()) == {}
      ensures z == -1 ==> HeapZones() == {}
      ensures z != -1 ==> 0 <= z < |pool.live| && z in old(HeapZones()) && HeapZones() == old(HeapZones()) - {z}
      ensures z != -1 ==> forall y :: y in old(HeapZones()) ==> 0 <= y < |pool.live| && pool.live[z] <= pool.live[y]
    {
      assert forall e :: e in heap.Live() ==> e.data in HeapZones();
      assert forall y :: y in HeapZones() ==> entry[y].priority == pool.live[y];
      var e := heap.ExtractMin();
      z := if e == null then -1 else e.data;
    }
  }
}
