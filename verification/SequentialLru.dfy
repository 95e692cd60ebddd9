/**
 * The lists of both caches in sequential runs, judged on what the run itself did: the order
 * of last touch, with the least recently used evicted first.
 */
module SequentialLru {
  import opened Types
  import opened LruSpec
  import opened LruOrder
  import opened CacheSpec
  import opened Chains
  import M = MapSpec
  import Z = ZoneSpec
  import ChunkSpec
  import ChunkCache
  import PromotionalSpec
  import PromotionalCache

  ghost function Pops<K>(q: seq<K>): seq<Event<K>> {
    seq(|q|, i requires 0 <= i < |q| => Pop(q[i]))
  }

  /** Popping the `k` oldest, one after the other. */
  lemma {:induction false} PopOldest<K(!new)>(h: seq<Event<K>>, q: seq<K>, k: nat)
    requires ListAfter(h) == Some(q) && k <= |q|
    ensures ListAfter(h + Pops(q[..k])) == Some(q[k..])
  {
    if k == 0 {
      assert h + Pops(q[..0]) == h && q[0..] == q;
    } else {
      PopOldest(h, q, k - 1);
      assert h + Pops(q[..k]) == h + Pops(q[..k - 1]) + [Pop(q[k - 1])];
      OneMoreEvent(h + Pops(q[..k - 1]), Pop(q[k - 1]), q[k - 1..]);
      assert q[k - 1..][1..] == q[k..];
    }
  }

  /** Popping the `k` oldest, and listing a new one if there is one. */
  lemma PopThenFill<K(!new)>(h: seq<Event<K>>, q: seq<K>, k: nat, more: seq<K>)
    requires ListAfter(h) == Some(q) && k <= |q| && |more| <= 1 && NoDup(q[k..] + more)
    ensures ListAfter(h + Pops(q[..k]) + Fills(more)) == Some(q[k..] + more)
  {
    PopOldest(h, q, k);
    if more != [] {
      assert (q[k..] + more)[|q[k..]|] == more[0];
      assert forall i :: 0 <= i < |q[k..]| ==> (q[k..] + more)[i] == q[k..][i];
      assert more == [more[0]] && Fills(more) == [Fill(more[0])];
      OneMoreEvent(h + Pops(q[..k]), Fill(more[0]), q[k..]);
    } else {
      assert q[k..] + more == q[k..] && h + Pops(q[..k]) + Fills(more) == h + Pops(q[..k]);
    }
  }

  ghost function Fills<K>(q: seq<K>): seq<Event<K>> {
    seq(|q|, i requires 0 <= i < |q| => Fill(q[i]))
  }

  /** The oldest entries of `q` that are gone from `q'`, `added` having joined it. */
  ghost function Dropped<K>(q: seq<K>, q': seq<K>, added: nat): seq<K> {
    var k := |q| + added - |q'|;
    if 0 <= k <= |q| then q[..k] else []
  }

  lemma DroppedIs<K>(q: seq<K>, k: nat, more: seq<K>)
    requires k <= |q|
    ensures Dropped(q, q[k..] + more, |more|) == q[..k]
  {
  }

  /** The events of an operation that may have evicted and listed. */
  lemma TurnoverLeads<K(!new)>(h: seq<Event<K>>, q: seq<K>, k: nat, more: seq<K>, q': seq<K>)
    requires ListAfter(h) == Some(q) && k <= |q| && |more| <= 1 && q' == q[k..] + more && NoDup(q')
    ensures ListAfter(h + (Pops(Dropped(q, q', |more|)) + Fills(more))) == Some(q')
  {
    DroppedIs(q, k, more);
    PopThenFill(h, q, k, more);
    assert h + (Pops(q[..k]) + Fills(more)) == h + Pops(q[..k]) + Fills(more);
  }

  /** What the operations of a run did to the list's keys, in order. */
  ghost function History<S, O, D, K(!new)>(
    events: (S, O, D, S) -> seq<Event<K>>, ops: seq<O>, out: seq<D>, states: seq<S>, i: nat): seq<Event<K>>
  {
    Gather(Batches(events, ops, out, states), i)
  }

  ghost function Batches<S, O, D, K>(
    events: (S, O, D, S) -> seq<Event<K>>, ops: seq<O>, out: seq<D>, states: seq<S>): nat -> seq<Event<K>>
  {
    (i: nat) =>
      if i < |out| && i < |ops| && i + 1 < |states| then events(states[i], ops[i], out[i], states[i + 1]) else []
  }

  ghost function Lists<S, K>(keys: S -> seq<K>, states: seq<S>): nat -> seq<K> {
    (i: nat) => if i < |states| then keys(states[i]) else []
  }

  /** The events of an operation lead from its list before to its list after. */
  ghost predicate Leads<S(!new), O(!new), D(!new), K(!new)>(
    did: (S, O, D, S) -> bool, events: (S, O, D, S) -> seq<Event<K>>, keys: S -> seq<K>)
  {
    forall s, o, d, s', h :: did(s, o, d, s') && ListAfter(h) == Some(keys(s)) ==>
      ListAfter(h + events(s, o, d, s')) == Some(keys(s'))
  }

  lemma BatchesLead<S(!new), O(!new), D(!new), K(!new)>(
    did: (S, O, D, S) -> bool, events: (S, O, D, S) -> seq<Event<K>>, keys: S -> seq<K>,
    ops: seq<O>, out: seq<D>, states: seq<S>)
    requires Leads(did, events, keys) && Chain(did, ops, out, states) && keys(states[0]) == []
    ensures Lead(Batches(events, ops, out, states), Lists(keys, states), |out|)
  {
    var batch, list := Batches(events, ops, out, states), Lists(keys, states);
    forall k: nat, h: seq<Event<K>> | k < |out| && ListAfter(h) == Some(list(k))
      ensures ListAfter(h + batch(k)) == Some(list(k + 1))
    {
      assert did(states[k], ops[k], out[k], states[k + 1]);
      assert list(k) == keys(states[k]) && list(k + 1) == keys(states[k + 1]);
      assert batch(k) == events(states[k], ops[k], out[k], states[k + 1]);
    }
  }

  lemma HistoryList<S(!new), O(!new), D(!new), K(!new)>(
    did: (S, O, D, S) -> bool, events: (S, O, D, S) -> seq<Event<K>>, keys: S -> seq<K>,
    ops: seq<O>, out: seq<D>, states: seq<S>, i: nat)
    requires Leads(did, events, keys) && Chain(did, ops, out, states) && keys(states[0]) == [] && i <= |out|
    ensures ListAfter(History(events, ops, out, states, i)) == Some(keys(states[i]))
  {
    BatchesLead(did, events, keys, ops, out, states);
    GatherList(Batches(events, ops, out, states), Lists(keys, states), |out|, i);
  }

  // ---------- the chunk policy ----------

  /** What an operation did to the chunks, as the state before and after tell. */
  ghost function ChunkEvents(s: ChunkSpec.Snap, op: ChunkCache.Op, d: Option<Bytes>,
      s': ChunkSpec.Snap): seq<Event<Loc>> {
    if op.Get? && M.Cached(s.m, op.id) then
      [Use(s.m.entry[op.id].loc)]
    else
      var written := if op.Get? && M.Cached(s'.m, op.id) then [s'.m.entry[op.id].loc] else [];
      Pops(Dropped(s.keys, s'.keys, |written|)) + Fills(written)
  }

  lemma ChunkMoves(c: ChunkCache.Cache, h: seq<Event<Loc>>, s: ChunkSpec.Snap, op: ChunkCache.Op,
      d: Option<Bytes>, s': ChunkSpec.Snap)
    requires c.st.g.Valid() && c.Did(s, op, d, s') && NoDup(s'.keys) && ListAfter(h) == Some(s.keys)
    ensures ListAfter(h + ChunkEvents(s, op, d, s')) == Some(s'.keys)
  {
    if op.Get? && M.Cached(s.m, op.id) {
      OneMoreEvent(h, Use(s.m.entry[op.id].loc), s.keys);
    } else {
      var written := if op.Get? && M.Cached(s'.m, op.id) then [s'.m.entry[op.id].loc] else [];
      var k := ChunkSplit(c, s, op, d, s', written);
      TurnoverLeads(h, s.keys, k, written, s'.keys);
    }
  }

  lemma ChunkSplit(c: ChunkCache.Cache, s: ChunkSpec.Snap, op: ChunkCache.Op, d: Option<Bytes>,
      s': ChunkSpec.Snap, written: seq<Loc>)
      returns (k: nat)
    requires c.st.g.Valid() && c.Did(s, op, d, s') && !(op.Get? && M.Cached(s.m, op.id))
    requires written == if op.Get? && M.Cached(s'.m, op.id) then [s'.m.entry[op.id].loc] else []
    ensures k <= |s.keys| && s'.keys == s.keys[k..] + written
  {
    if op.Get? {
      var mid :| ChunkSpec.Missed(c.lim, s, op.id, d.Some?, s', mid);
      k := c.lim.Dropped(s.zs, |s.keys|);
    } else {
      k := |s.keys| - |s'.keys|;
    }
  }

  ghost function ChunkKeys(): ChunkSpec.Snap -> seq<Loc> {
    (s: ChunkSpec.Snap) => s.keys
  }

  lemma ChunkLeads(c: ChunkCache.Cache)
    requires c.st.g.Valid()
    ensures Leads(c.Sound(), ChunkEvents, ChunkKeys())
  {
    forall s, op, d, s', h | c.Sound()(s, op, d, s') && ListAfter(h) == Some(ChunkKeys()(s))
      ensures ListAfter(h + ChunkEvents(s, op, d, s')) == Some(ChunkKeys()(s'))
    {
      ChunkMoves(c, h, s, op, d, s');
    }
  }

  /**
   * In every sequential run of a new cache under the chunk policy, the list holds the chunks
   * in order of last touch, judged on the run's own reads and writes, and the chunks that go
   * are those untouched for longest.
   */
  lemma ChunkRunLru(c: ChunkCache.Cache, ops: seq<ChunkCache.Op>, out: seq<Option<Bytes>>,
                    trace: seq<ChunkSpec.Snap>, i: nat)
    requires c.st.g.Valid() && Chain(c.Sound(), ops, out, trace) && trace[0].keys == [] && i <= |out|
    ensures var h := History(ChunkEvents, ops, out, trace, i); LruHistory(h) && InOrder(h, trace[i].keys)
  {
    ChunkLeads(c);
    HistoryList(c.Sound(), ChunkEvents, ChunkKeys(), ops, out, trace, i);
    ListIsLru(History(ChunkEvents, ops, out, trace, i));
  }

  // ---------- the promotional policy ----------

  /** What an operation did to the full zones: one whose last chunk is written is filled. */
  ghost function ZoneEvents(s: PromotionalSpec.Snap, op: PromotionalCache.Op, d: Option<Bytes>,
      s': PromotionalSpec.Snap): seq<Event<nat>> {
    if op.Get? && M.Cached(s.m, op.id) then
      [Use(s.m.entry[op.id].loc.zone)]
    else
      var filled := Filled(s, op, s');
      Pops(Dropped(s.keys, s'.keys, |filled|)) + Fills(filled)
  }

  ghost function Filled(s: PromotionalSpec.Snap, op: PromotionalCache.Op, s': PromotionalSpec.Snap): seq<nat> {
    if op.Get? && M.Cached(s'.m, op.id) && s'.m.entry[op.id].loc.chunk + 1 == s.zs.maxChunks
    then [s'.m.entry[op.id].loc.zone] else []
  }

  lemma ZoneMoves(c: PromotionalCache.Cache, h: seq<Event<nat>>, s: PromotionalSpec.Snap,
      op: PromotionalCache.Op, d: Option<Bytes>, s': PromotionalSpec.Snap)
    requires c.st.g.Valid() && c.Did(s, op, d, s') && NoDup(s'.keys) && ListAfter(h) == Some(s.keys)
    ensures ListAfter(h + ZoneEvents(s, op, d, s')) == Some(s'.keys)
  {
    if op.Get? && M.Cached(s.m, op.id) {
      OneMoreEvent(h, Use(s.m.entry[op.id].loc.zone), s.keys);
    } else {
      var filled := Filled(s, op, s');
      var k := ZoneSplit(c, s, op, d, s');
      TurnoverLeads(h, s.keys, k, filled, s'.keys);
    }
  }

  lemma ZoneSplit(c: PromotionalCache.Cache, s: PromotionalSpec.Snap, op: PromotionalCache.Op,
      d: Option<Bytes>, s': PromotionalSpec.Snap)
      returns (k: nat)
    requires c.st.g.Valid() && c.Did(s, op, d, s') && !(op.Get? && M.Cached(s.m, op.id))
    ensures k <= |s.keys| && s'.keys == s.keys[k..] + Filled(s, op, s')
  {
    if op.Get? {
      k := |PromotionalSpec.Evicted(c.low, s.zs, s.keys)|;
    } else {
      k := PromotionalSpec.EvictCount(c.low, |s.zs.free|, |s.keys|);
    }
  }

  ghost function ZoneKeys(): PromotionalSpec.Snap -> seq<nat> {
    (s: PromotionalSpec.Snap) => s.keys
  }

  lemma ZoneLeads(c: PromotionalCache.Cache)
    requires c.st.g.Valid()
    ensures Leads(c.Sound(), ZoneEvents, ZoneKeys())
  {
    forall s, op, d, s', h | c.Sound()(s, op, d, s') && ListAfter(h) == Some(ZoneKeys()(s))
      ensures ListAfter(h + ZoneEvents(s, op, d, s')) == Some(ZoneKeys()(s'))
    {
      ZoneMoves(c, h, s, op, d, s');
    }
  }

  /**
   * In every sequential run of a new cache under the promotional policy, the list holds the
   * full zones in order of last touch, judged on the run's own fills and reads, and the zones
   * evicted are those untouched for longest.
   */
  lemma ZoneRunLru(c: PromotionalCache.Cache, ops: seq<PromotionalCache.Op>, out: seq<Option<Bytes>>,
                   trace: seq<PromotionalSpec.Snap>, i: nat)
    requires c.st.g.Valid() && Chain(c.Sound(), ops, out, trace) && trace[0].keys == [] && i <= |out|
    ensures var h := History(ZoneEvents, ops, out, trace, i); LruHistory(h) && InOrder(h, trace[i].keys)
  {
    ZoneLeads(c);
    HistoryList(c.Sound(), ZoneEvents, ZoneKeys(), ops, out, trace, i);
    ListIsLru(History(ZoneEvents, ops, out, trace, i));
  }
}
