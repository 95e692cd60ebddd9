# A verified model of ZNCache

ZNCache caches data items on a zoned SSD. A get looks its id up in the cache map; on a
hit it reads the item's slot, on a miss it is granted a slot by the zone state manager,
writes the data there and publishes the id. Full zones are reclaimed by one of two
eviction policies: a zone LRU ("promotional"), or a chunk LRU with garbage collection
driven by an indexed min-heap. Many threads do this at once.

The project has two levels.

* **Sequential.** Each component is a class whose methods change it in place
  (`ZoneManager`, `CacheMap`, `LruList`, `MinHeap`, `ChunkPolicy`, `Transfer`), and the two
  caches (`PromotionalCache`, `ChunkCache`) run whole gets and evictions over them, down to
  the bytes on the device, with reads and writes that may fail or be short.
* **Concurrent.** `Machine` lets any number of threads run `zn_cache_get` and
  `zn_fg_evict` under the promotional policy, one critical section or device access per
  step. `Invariants` proves what every reachable state satisfies; `Concurrency`, `LruRuns`,
  `Histories`, `LateInsert` and `Progress` draw the consequences for all runs.

Both levels use the same functions for the zone manager (`ZoneSpec`), the map (`MapSpec`)
and the LRU order (`LruSpec`).

## What is proved

* **Transparency.** In every sequential run, and in every concurrent run that respects
  publish-before-evict, a get returns the source's data for its id or nothing. A pinned
  slot keeps its data from pin to unpin, because no zone is reset while it is pinned. In
  sequential runs a hit returns data exactly when its slot can be read and a miss exactly
  when its slot can be written, each within the tries the code makes.
* **Publish-before-evict is exact.** The code returns a zone and tells the policy before
  it publishes the id (`src/cache.c:142-146`), so a zone can be evicted under an id that is
  still to be published, against the comment at `src/cache.c:41-42`. `SafeToClearIff`
  proves that clearing a zone is safe if and only if no thread holds an unpublished slot
  of it; `LateInsertHappens` builds a two-thread run of the code as written in which a get
  fetches data that is not its id's. The concurrent results below are for runs in which a
  zone is cleared only when that condition holds; this covers every run that checks it
  already when the zone is popped (`CheckedAtPop`).
* **Progress.** At every point of every concurrent run the operations in progress can all be
  brought to their return by their own steps, none of them against the rule (`CanFinish`):
  nothing deadlocks, and publish-before-evict adds no blocking. An evictor on the way goes
  through its whole loop, clearing, draining and resetting zone after zone, since the code
  stops it only when its budget is spent, the list is empty or the policy's lock is taken.
* **Agreement of the parts.** The FULL zones are exactly the disjoint union of the listed,
  the not yet listed and the popped ones; forward and inverse maps are inverse; one writer
  per id, and no lost wakeup; reader counts equal pins and drain; every assertion in the
  code holds where it is reached. Under the chunk policy map, LRU list, pool, counters and
  heap agree after every operation, also when an eviction updates a stale heap entry.
* **Garbage collection.** Whether a collection ends with enough zones, with an empty heap
  or in the migration of live chunks is decided exactly by the number of full zones without
  a live chunk when it starts; until then it resets only such zones and keeps every mapping.
* **When a get under the chunk policy returns.** Two passes of its loop always decide it. A
  miss fails to return exactly when every zone is full and either no eviction is called for
  (it then goes round for ever), or one is called for and has to migrate, or the low chunk
  threshold exceeds the number of chunks (the code then uses what it popped from an empty
  list). `Run` says which of these cut a run short, from the state before the operation;
  `SpinHappens` is a run of four gets on a faultless device of which the last never returns.
* **Histories.** What the state holds is read off what the threads did, with no state in
  sight: an id is in the map exactly where it was last published, if its zone was not cleared
  since; a get returns data exactly when its one transfer went through; zones are granted in
  the order in which they came to be active or free; slots are issued 0, 1, 2, ... with a
  failed one issued again; the lists of both policies are in order of last touch.
* **Refinements.** The LRU list with its hash index refines "touched longest ago"; the
  indexed heap keeps order, positions and handles, and ignores stale handles.

Where the code and its documentation differ, the model follows the code:

* `zn_fg_evict` computes its bound as an unsigned 32-bit difference. With more free zones
  than the low threshold it wraps, and the whole LRU list is evicted (`EvictCountMeaning`
  says exactly when the count is the intended one; `OvershootHappens` is a run of three
  threads that meets it).
* `BACKOFF_RETRIES` is 5 where reads are compiled and 8 where writes are.
* A get with a chunk or I/O size that is not a multiple of 4096 writes, but every later hit
  on it returns no data (`PromotionalCache.Cache.Get`).

Assumptions the code needs, made explicit here: at least one chunk per zone and one active
zone, and under the chunk policy one zone, since the heap starts with that capacity; high
thresholds below low ones; products that fit their integer types; all gets are given the
same remote buffer of at least four bytes; zone open, finish and reset commands succeed;
`zn_cachemap_find` copies the entry before it releases the lock; a zone's `pqueue_entry` is
null until the zone first fills, as `architecture.md` says and the initialisation does not.
With no zone at all, or a low threshold of no zones, a promotional get that finds every zone
full goes round its loop for ever; `AcquireSlot` proves that this is the only case, and
`CanFinish` assumes it away.

## Model

| member | source | states |
|---|---|---|
| Concurrency.ReaderSafety | src/cache.c:64-93 | in every run, whatever the interleaving, a pinned slot holds the data of the id looked up, and every buffer fetched or returned is the source's data for its id |
| ThreadRuns.ReturnsIff | src/cache.c:64-161 | in every interleaving a get that has returned holds the source's data exactly when its one transfer, the read of its hit or the write of its miss, went through, and nothing exactly when that failed |
| MapRuns.MapIsHistory | src/cachemap.c:82-160 | in every interleaving an id is mapped to a slot exactly when it was last published there and the zone has not been cleared since |
| MapRuns.LookupIsHistory | src/cachemap.c:39-80 | a lookup hits exactly there, waits exactly while some thread owns the id's write, and otherwise takes the write over |
| SlotRuns.IsManagerRun | src/zone_state_manager.c:170-312 | the steps of any interleaving that use the zone manager make a run of the manager alone |
| SlotRuns.ConcurrentGrant | src/zone_state_manager.c:170-229 | in every interleaving a request gets a slot exactly when there is an active zone or a free one within the limit, of the zone whose turn it is, and of that the chunk after those returned |
| ThreadRuns.BudgetIsHistory | src/cache.c:25-27 | what an eviction call may still pop is the shortfall of free zones it counted, in 32-bit arithmetic, less what it has popped since |
| Concurrency.ResetOnlyUnpinnedFull | src/cache.c:35-46 | a zone is reset only while FULL and while no thread pins it, so never twice in a row |
| Concurrency.NoAssertionFails | src/zone_state_manager.c:245-303 | every assertion of the manager and the map holds in every run wherever a thread reaches it |
| Concurrency.IndexAgrees | src/cachemap.c:82-160 | in every run an id is mapped to a slot exactly when the inverse table maps the slot to it |
| Concurrency.SlotsExclusive | src/zone_state_manager.c:216-225 | a granted, unpublished slot is held by one thread only and by no map entry, and two writes in flight are in different zones |
| Concurrency.RetryHasAWriter | src/zone_state_manager.c:189-212 | a request is told to retry only while some thread has a write in flight |
| Concurrency.SingleWriter | src/cachemap.c:59-78 | an id is marked as being written exactly when one thread, and only one, owns its write |
| Concurrency.SleepersHaveAWriter | src/cachemap.c:59-61 | a thread sleeps on an id only while another, awake, owns its write |
| Concurrency.BroadcastWakesAll | src/cachemap.c:90-104 | publishing or failing an id leaves nobody asleep on it and nobody owning it |
| Concurrency.FullPartition | src/eviction/promotional.c:28-79 | the FULL zones are the disjoint union of listed, filled-but-unlisted and popped zones; the list has no duplicate, no zone is popped twice |
| Concurrency.PinDrain | src/cache.c:35-39 | while an evictor waits, the reader count is the number of pins, falls by one at each unpin and never rises; the work left falls by one at each step of a reader |
| Concurrency.DrainProgress | src/cache.c:37-39 | the work left is at most three steps per reader, zero exactly when the evictor may go on, and until then some reader has a step to take |
| Progress.CanFinish | src/cache.c:22-163 | from every state of every run the operations in progress can all be brought to their return by their own steps, each going on to another point, without a new one and within the rule; an evictor leaves its loop only as the code does |
| Progress.NoDeadlock | src/cache.c:96-114 | unless every operation has returned, one of them has a step that the rule allows and that takes it to another point, so neither a retry nor a spurious wakeup |
| Progress.BarredByPublisher | src/cache.c:142-146 | an evictor barred by the rule waits only for a thread that has returned its zone and can go on to publish |
| Reachability.CheckedAtPop | src/cache.c:28-35 | every run that checks the rule when a zone is popped respects it when the zone is cleared |
| Invariants.NextKeepsInv | src/cache.c:22-163 | every step of every thread keeps the joint invariant of map, zones, list, pins, slots and data |
| Invariants.AssertionsHold | src/cachemap.c:91-94 | in any state satisfying the invariant each assertion the code makes at a reached step is true |
| LateInsert.SafeToClearIff | src/cache.c:35-46 | an evictor may clear its zone without any later get fetching wrong data if and only if no thread holds an unpublished slot of the zone |
| LateInsert.LateInsertHappens | src/cache.c:142-146 | a two-thread run of the code as written reaches a clear after which a get fetches data that is not its id's |
| LateInsert.LateReadsJunk | src/cache.c:37-46 | from any state in which a zone was cleared under an unpublished slot such a get can be reached, however many readers are inside |
| Overshoot.OvershootHappens | src/cache.c:25-28 | three gets that find every zone full reach a point where two have evicted and the third counts two free zones while it wants one; from there its one call evicts all that is left |
| LruOrder.ListIsLru | src/eviction/promotional.c:28-79 | the list accepts exactly the histories in which each pop takes the zone untouched for longest, and holds the live zones in order of last touch |
| LruOrder.HeadIsLeast | src/eviction/promotional.c:73-79 | the head of the list is the one listed zone with the least time of last touch |
| LruRuns.EvictsLeastRecent | src/eviction/promotional.c:57-80 | in every interleaving the list is in order of last touch over the run's own history, and a popped zone was touched longest ago |
| LruList.List.PushTail | src/eviction/promotional.c:28-31 | a key goes to the tail and its index entry is its own link |
| LruList.List.Use | src/eviction/promotional.c:32-42 | a listed key moves to the tail under a new link, an unlisted one changes nothing |
| LruList.List.Unlink | src/eviction/promotional.c:36-37 | deleting a link takes out exactly its key, the rest staying in order |
| LruList.List.PopHead | src/eviction/promotional.c:73-79 | the head leaves the list and the index, the rest staying in order |
| ZoneManager.Manager.constructor | src/zone_state_manager.c:132-168 | all zones start free, in order, with the invariant established |
| ZoneManager.Manager.GetActiveZone | src/zone_state_manager.c:170-229 | refines the value-level request and keeps the invariant |
| ZoneManager.Manager.TakeHead | src/zone_state_manager.c:214-228 | the head of the active queue is handed out at its current chunk and counted as writing |
| ZoneManager.Manager.OpenZone | src/zone_state_manager.c:104-130 | refused exactly when the limit on active zones is reached, changing nothing; otherwise the zone is the newest active one, at chunk 0 |
| ZoneManager.Manager.OpenHead | src/zone_state_manager.c:192-205 | within the limit the oldest free zone becomes the newest active one, and opening is never refused |
| ZoneManager.Manager.ReturnActiveZone | src/zone_state_manager.c:239-269 | refines the value-level return, closing the zone after its last chunk, and keeps the invariant |
| ZoneManager.Manager.FailedToWrite | src/zone_state_manager.c:294-312 | the zone is active again at the same chunk, and the invariant is kept |
| ZoneManager.Manager.EvictZone | src/zone_state_manager.c:271-292 | a FULL zone becomes the newest free one, and the invariant is kept |
| ZoneManager.Manager.NumFullZones | src/zone_state_manager.c:330-343 | the scan counts exactly the FULL zones |
| ZoneSpec.GetActiveKeepsInv | src/zone_state_manager.c:170-229 | a request keeps the invariant; a granted slot is the next unwritten one of a zone that is not being written; a refusal changes nothing |
| ZoneSpec.ReturnKeepsInv | src/zone_state_manager.c:252-265 | a return keeps the invariant and raises the zone's fill level by one |
| ZoneSpec.FailKeepsInv | src/zone_state_manager.c:306-309 | a failed write keeps the invariant and the fill level |
| ZoneSpec.ResetKeepsInv | src/zone_state_manager.c:66-92 | a reset keeps the invariant and empties the zone |
| ZoneSpec.RefusalMeaning | src/zone_state_manager.c:181-212 | EVICT exactly when every zone is FULL; RETRY exactly when no zone is active, one is being written, and the limit is reached or none is free |
| ZoneSpec.GrantMeaning | src/zone_state_manager.c:181-228 | a request is served by the head of the active queue as long as any zone is active, and only otherwise by the head of the free queue |
| ZoneSpec.ReturnMeaning | src/zone_state_manager.c:239-269 | the zone has one more chunk, and is then FULL or the last in the active queue; no other zone changes |
| ZoneSpec.FailMeaning | src/zone_state_manager.c:294-312 | the zone is as full as before and the last in the active queue; no other zone changes |
| ZoneSpec.EachZoneOnce | src/zone_state_manager.c:153-167 | every zone is in exactly one of free queue, active queue, writing and FULL, once, as its state field says |
| SlotDiscipline.ZonesPartitioned | src/zone_state_manager.c:132-312 | after any sequence of operations that partition holds, writes in flight are counted exactly, and the active limit and chunk bounds are kept |
| SlotDiscipline.NeverBlocked | src/zone_state_manager.c:239-303 | after any run every operation that the code's own assertions allow can be performed |
| SlotDiscipline.ReturnedInOrder | src/zone_state_manager.c:248-265 | between two resets of a zone the slots returned are exactly 0, 1, 2, ... up to the fill level |
| SlotDiscipline.IssuedIsNext | src/zone_state_manager.c:216-225 | every slot issued is the next after those returned, in a zone with no other write in flight |
| SlotDiscipline.FailedSlotComesBack | src/zone_state_manager.c:301-309 | a slot whose write failed is the next one its zone issues, however much later |
| SlotDiscipline.GrantedInTurn | src/zone_state_manager.c:170-312 | judged on the history of operations alone, a request gets the active zone given back longest ago, or if none is active the free zone reset longest ago, and some slot whenever there is one |
| CacheMap.Map.constructor | src/cachemap.c:13-30 | an empty map with empty inverse tables |
| CacheMap.Map.Find | src/cachemap.c:39-80 | a hit pins the zone, an absent or empty id becomes owned, an id being written blocks; the maps stay inverse |
| CacheMap.Map.Insert | src/cachemap.c:82-105 | the id and its slot are mapped to each other, and the maps stay inverse if and only if the slot was unoccupied |
| CacheMap.Map.ClearChunk | src/cachemap.c:107-134 | exactly the id stored in the slot is emptied |
| CacheMap.Map.ClearZone | src/cachemap.c:136-160 | the loop over the zone's inverse table empties exactly the ids of the zone and changes no other |
| CacheMap.Map.Fail | src/cachemap.c:162-172 | the id is emptied and nothing else changes |
| MapSpec.InsertKeepsIff | src/cachemap.c:96-99 | publishing keeps the two maps inverse if and only if the slot was unoccupied |
| MapSpec.FindMeaning | src/cachemap.c:39-80 | a lookup hits exactly the slot of the id and adds a reader to its zone only, waits exactly while the id is being written, and otherwise marks it so |
| MapSpec.EndMeaning | src/cachemap.c:82-172 | publishing maps the id to its slot, failing maps it nowhere, and no other id or reader is touched |
| MapSpec.NoSharedSlot | src/cachemap.c:96-99 | no two ids are mapped to the same slot |
| MapSpec.ClearChunkKeeps | src/cachemap.c:116-129 | forgetting a slot keeps the maps inverse, removes that mapping and no other |
| MapSpec.ClearZoneKeeps | src/cachemap.c:146-157 | clearing a zone keeps the maps inverse, removes the zone's mappings and no other |
| Payload.ValidateRead | src/cache.c:356-372 | returns 0 exactly for a buffer whose first four bytes make the id and whose every later byte is the compared buffer's at the same place |
| Payload.Gen | src/cache.c:340-354 | the data of an id: the remote buffer byte for byte, but for the first four, which make the id |
| Payload.OnlyGen | src/cache.c:340-354 | no other buffer is like that |
| Payload.GenInjective | src/cache.c:340-354 | different ids have different data |
| Transfer.PointerExact | include/znutil.h:21-22 | the 64-bit address of a slot never wraps, and is zone times zone size plus chunk times chunk size |
| Transfer.SlotsDisjoint | include/znutil.h:21-22 | distinct slots occupy disjoint byte ranges |
| Transfer.WritePiece | src/cache.c:311-330 | a piece is written within eight tries or given up, and only its own bytes change |
| Transfer.WriteOut | src/cache.c:301-337 | returns 0 exactly when there are moments, one per piece, at each of which the piece goes through as the first of at most eight attempts at it, and then the buffer is on the device; only the target range is touched |
| Transfer.ReadPiece | src/cache.c:273-290 | a piece is read within five tries or given up |
| Transfer.ReadFromDisk | src/cache.c:243-296 | a buffer exactly when sizes and address are multiples of 4096 and each piece is read as the first of at most five attempts at it, and then it is the slot's content |
| Transfer.MovedMeaning | src/cache.c:243-337 | all bytes are moved exactly when such moments exist |
| Store.Store.ReadableMeaning | src/cache.c:243-296 | when a slot can be read: multiples of 4096, five attempts a piece |
| Store.Store.WritableMeaning | src/cache.c:298-337 | when a slot can be written: eight attempts a piece |
| Transfer.WriteThenRead | src/cache.c:243-337 | a successful write followed by a successful read of the slot gives back the buffer, for any pattern of short or failed transfers |
| Store.Store.Find | src/cache.c:64-65 | a lone lookup never blocks; it pins the slot found or takes ownership of the id |
| Store.Store.ReadSlot | src/cache.c:71-71 | reading a mapped slot gives the source's data for its id |
| Store.Store.WriteSlot | src/cache.c:116-135 | writing the granted slot disturbs no mapped id's data |
| Store.Store.Undo | src/cache.c:156-159 | a failed write gives the slot back to its zone and empties the id, and all data stays in place |
| Store.Store.ResetZone | src/zone_state_manager.c:66-92 | resetting a zone with nothing in the map, whose bytes become arbitrary, disturbs no mapped id's data |
| CacheSpec.WroteMeaning | src/cache.c:116-161 | a miss adds one chunk to the zone of its slot if its write went well and none otherwise, and leaves that zone FULL or the last in the active queue |
| PromotionalCache.Cache.Get | src/cache.c:56-163 | a returned buffer is the source's data; a hit returns it exactly when the slot can be read and changes only the LRU order; a miss returns it and maps its id to the slot granted exactly when that can be written; zones, list and the other ids after it are exactly those before it with the zones evicted reset and forgotten, none unless every zone was full; it never returns exactly when every zone is full and none can be freed |
| PromotionalCache.Cache.Run | src/cache.c:56-163 | any sequence of gets and evictions: each does exactly what its own contract says to the state it finds, every buffer is the source's data, and zones, map and list agree throughout; all return, unless there is no zone or nothing may be evicted, and then it stops at the first miss with every zone full |
| PromotionalCache.Cache.Perform | src/zncache.c:140-153 | an operation does exactly what its contract says, and the validation of reads returns 0 for every buffer a get returns |
| PromotionalCache.Cache.FgEvict | src/cache.c:22-54 | exactly the least recently used zones are reset, as many as the bound and the list allow, and exactly their ids are forgotten |
| PromotionalCache.Cache.AcquireSlot | src/cache.c:96-114 | a lone get never meets RETRY and evicts once, exactly when every zone is full; it finds no slot exactly when that eviction can free no zone, and then leaves everything as it was |
| PromotionalCache.Cache.PolicyWrite | src/eviction/promotional.c:28-31 | the list holds exactly the full zones again once the zone of a last chunk is pushed |
| PromotionalCache.Cache.WriteBack | src/cache.c:116-161 | data exactly when the write succeeded; then the id is published, otherwise slot and entry are given back |
| PromotionalCache.Cache.Hit | src/cache.c:67-93 | the slot's data exactly when it can be read; only the LRU order changes, and the pin is released |
| PromotionalSpec.EvictCountMeaning | src/cache.c:25-27 | the number of zones evicted is the shortfall of free zones exactly when these do not exceed the threshold or the list is empty; otherwise the whole list goes |
| PromotionalSpec.StallsMeaning | src/cache.c:96-114 | a get that misses loops for ever exactly when every zone is FULL and there is none, or none may be evicted |
| PromotionalSpec.EvictedMeaning | src/cache.c:25-28 | a get evicts nothing while some zone is not FULL, and otherwise as many of the oldest zones as the threshold says, or all |
| PromotionalSpec.GoneMeaning | src/cache.c:35-46 | the zones evicted are free and empty, in order behind the free ones, and exactly their ids are forgotten |
| SequentialLru.ZoneRunLru | src/eviction/promotional.c:28-79 | in every sequential run the list holds the full zones in order of last touch, judged on the run's own fills and reads, and those untouched longest are evicted first |
| MinHeap.Heap.Grow | src/minheap.c:9-17 | doubling the array moves no entry |
| MinHeap.Heap.BubbleUp | src/minheap.c:22-42 | restores heap order with the same entries, each knowing its position |
| MinHeap.Heap.BubbleDown | src/minheap.c:47-79 | restores heap order with the same entries, and moves nothing in a heap already in order |
| MinHeap.Heap.Insert | src/minheap.c:124-150 | adds exactly one entry; every handle stays valid, also when the array grows |
| MinHeap.Heap.ExtractMin | src/minheap.c:152-177 | null exactly when empty, otherwise an entry of least priority, and only that one leaves |
| MinHeap.Heap.UpdateByEntry | src/minheap.c:182-206 | re-prioritises the entry and no other; a handle already extracted moves nothing and changes no priority in the heap |
| MinHeap.Drain | src/minheap.c:152-177 | repeated extraction yields every entry once, in order of priority |
| HeapOrder.RootIsMin | src/minheap.c:162-163 | the root of an ordered heap is a minimum |
| HeapOrder.OrderedMeaning | src/minheap.c:22-79 | heap order is that no entry is larger than those at twice its place plus one and plus two |
| HeapOrder.UpSwap | src/minheap.c:25-41 | one swap of the upward loop leaves only the parent's place to repair |
| HeapOrder.DownSwap | src/minheap.c:50-78 | one swap of the downward loop leaves only the child's place to repair |
| ChunkPool.ListFits | src/eviction/chunk.c:161-162 | the chunk list is never longer than the number of chunks on disk, so the free count does not wrap |
| ChunkPolicy.Policy.constructor | src/eviction_policy.c:76-118 | no chunk in use, no zone in the heap |
| ChunkPolicy.Policy.Write | src/eviction/chunk.c:35-53 | the chunk comes into use at the tail of the list, and with the zone's last chunk the zone enters the heap with its live count as priority |
| ChunkPolicy.Policy.Read | src/eviction/chunk.c:54-68 | a listed chunk moves to the tail |
| ChunkPolicy.Policy.EvictOldest | src/eviction/chunk.c:184-197 | the least recently used chunk goes out of use and its zone's priority follows; with a null or stale handle the heap is left alone |
| ChunkPolicy.Policy.PopFewest | src/eviction/chunk.c:90-93 | a full zone with the fewest live chunks leaves the heap |
| ChunkSpec.EvictArithmetic | src/eviction/chunk.c:161-186 | neither unsigned subtraction wraps, the pops stay within the list exactly when the low threshold is at most the total, and the free count ends at that threshold |
| ChunkSpec.ClearedMaps | src/cachemap.c:107-134 | forgetting a list of slots keeps the maps inverse and forgets exactly those ids |
| ChunkSpec.VerdictMeaning | src/eviction/chunk.c:79-149 | how a collection ends, in numbers of free and of dead zones, and in migration only if a FULL zone has a chunk on the list |
| ChunkSpec.EvictFateMeaning | src/eviction/chunk.c:161-186 | how an eviction ends, in numbers of chunks and zones |
| ChunkSpec.EvictEndingMeaning | src/eviction/chunk.c:152-224 | an eviction between gets never spins, and faults or migrates in exactly those cases |
| ChunkSpec.SlotFateMeaning | src/cache.c:96-114 | when the search for a slot spins, faults or reaches migration, in the same numbers: only with every zone FULL |
| ChunkCache.Cache.constructor | src/cache.c:165-215 | an empty store and policy in agreement |
| ChunkCache.Cache.Invalidate | src/eviction/chunk.c:183-204 | exactly the given number of least recently used chunks leave list, pool and map, in agreement throughout |
| ChunkCache.Cache.HasLive | src/eviction/chunk.c:103-106 | the scan finds a chunk in use exactly when the zone's counter is positive |
| ChunkCache.Cache.GcRound | src/eviction/chunk.c:89-148 | the fewest-live zone is reset if it is dead; otherwise no dead zone is left |
| ChunkCache.Cache.Gc | src/eviction/chunk.c:79-150 | how the collection ends is decided by the dead zones at its start, in migration exactly when these are too few and another FULL zone has a chunk on the list; only dead zones are reset, every mapping is kept, and it ends with exactly the low threshold of free zones when there are enough |
| ChunkCache.Cache.Evict | src/eviction/chunk.c:152-224 | nothing exactly while the list is empty or more chunks are free than the high threshold; otherwise exactly the oldest chunks that bring the free count to the low threshold, then a collection; a pop from the empty list exactly when that threshold exceeds the number of chunks |
| ChunkCache.Cache.Agreement | src/eviction/chunk.c:28-62 | a chunk is in use, on the list and in the map together; counters count; a zone is in the heap exactly when full, with its live count as priority |
| ChunkCache.Cache.Get | src/cache.c:56-163 | a returned buffer is the source's data; a hit returns it exactly when the slot can be read; a miss returns it, maps its id to the slot granted and forgets just what was evicted; whether it returns, and why not, is decided exactly by the zones and the list before it |
| ChunkCache.Cache.AcquireSlot | src/cache.c:96-114 | two passes decide: a slot, or exactly the failure the state before foretells; when no eviction is called for the pass changes nothing, so it repeats for ever |
| ChunkCache.Cache.Hit | src/cache.c:67-93 | under the chunk policy: the slot's data exactly when it can be read, and only the LRU order changes |
| ChunkSpec.ReclaimedServes | src/cache.c:96-114 | with every zone full, a collection that ends without migrating leaves a slot to be granted |
| ChunkCache.Cache.Run | src/cache.c:56-163 | any sequence of gets and evictions: each does what its own contract says to the state it finds, every buffer is the source's data, and map and list agree throughout, pool, counters and heap too at the end of every run; it stops short exactly at an operation that does not return, for the reason given by the state before it |
| SequentialLru.ChunkRunLru | src/eviction/chunk.c:28-70 | in every sequential run the list holds the chunks in order of last touch, judged on the run's own reads and writes, and those untouched longest are invalidated first |
| ChunkSpin.SpinHappens | src/eviction/chunk.c:161-167 | on a new cache of two zones of one 4096-byte chunk and a faultless device three gets return and the fourth never does |

## Left out

- Live-chunk migration inside garbage collection (`src/eviction/chunk.c:103-144`): it is unfinished in the source (it publishes over an existing entry against the map's own assertion and never returns the slot it takes); the model stops where it would start, and says exactly when that is.
- Concurrent reader safety under the chunk policy: its collection resets zones without waiting for readers.
- Failing zone open, finish and reset commands, and with them the ERROR result of a slot request: the source asserts on the first and loses the zone on the others.
- The per-zone queue of invalid chunks: it is only written, and not cleared on the path that resets a zone.
- Concurrency.ReaderSafety: a read of a slot is one step; since the slot's content is constant from pin to unpin the same holds for reads in pieces.
- Unbounded numbers stand for the 32-bit counters and priorities; only the two subtractions that can wrap, and the 64-bit address arithmetic, are modelled with their widths, and the heap's capacity may double without bound.
- The byte order of the id in a buffer is little-endian; allocation, alignment of buffers and sleeps are left out.
- GLib queues and hash tables are sequences and maps, list links are objects; their internals are not modelled.
- The profiler, timing, printing, option parsing, workload loading and thread pool: reporting and plumbing.
