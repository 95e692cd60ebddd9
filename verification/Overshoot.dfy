/**
 * The wrap-around in `zn_fg_evict` can be met: three gets that find every zone full go to
 * evict at once, and the last to count the free zones finds more than it wants.
 */
module Overshoot {
  import opened Types
  import opened Machine
  import opened Invariants
  import opened Counting
  import opened Reachability
  import opened Paths
  import opened Progress
  import Z = ZoneSpec
  import M = MapSpec

  /** Three zones of one chunk, of which one is to be kept free. */
  predicate Three(c: Config) {
    c.numZones == 3 && c.maxChunks == 1 && c.low == 1
  }

  /** No write is in flight, no zone partly filled, and no id from `n` on has been asked for. */
  ghost predicate Still(s: State, free: seq<nat>, lru: seq<nat>, n: nat) {
    && s.zsm.free == free && s.zsm.active == [] && s.zsm.writes == 0 && s.zsm.maxChunks == 1
    && s.lru == lru && (forall i :: i in s.cmap.entry ==> i < n) && |s.cmap.inverse| == 3
  }

  predicate NoneWaits(s: State) {
    forall t :: 0 <= t < |s.pc| ==> !s.pc[t].Waiting?
  }

  /** A get of a new id takes the slot of the oldest free zone, */
  lemma FillGrant(c: Config, s0: State, s: State, t: nat, id: Id, z: nat, rest: seq<nat>, lru: seq<nat>, n: nat)
      returns (s': State)
    requires c.Valid() && Three(c) && Init(c, s0) && Reaches(c, s0, s)
    requires Still(s, [z] + rest, lru, n) && id >= n && t < |s.pc| && AtRest(s.pc[t])
    ensures Reaches(c, s0, s') && s'.pc == s.pc[t := Writing(id, Loc(z, 0))]
    ensures s'.zsm.free == rest && s'.zsm.active == [] && s'.zsm.writes == 1 && s'.zsm.maxChunks == 1
    ensures s'.lru == lru && |s'.cmap.inverse| == 3
    ensures id in s'.cmap.entry && forall i :: i in s'.cmap.entry ==> i <= id
  {
    s' := LooksNew(c, s0, s, t, id, [z] + rest, lru, n);
    s' := Advance(c, s0, s', GetSlot(t));
  }

  /** writes and returns it, which fills the zone, */
  lemma FillWrite(c: Config, s0: State, s: State, t: nat, id: Id, z: nat) returns (s': State)
    requires c.Valid() && Init(c, s0) && Reaches(c, s0, s)
    requires t < |s.pc| && s.pc[t] == Writing(id, Loc(z, 0)) && s.zsm.writes == 1 && s.zsm.maxChunks == 1
    ensures Reaches(c, s0, s') && s'.pc == s.pc[t := Returned(id, Loc(z, 0))]
    ensures s'.zsm.free == s.zsm.free && s'.zsm.active == s.zsm.active && s'.zsm.writes == 0 && s'.zsm.maxChunks == 1
    ensures s'.lru == s.lru && s'.cmap == s.cmap
  {
    s' := Advance(c, s0, s, WriteOk(t));
    s' := Advance(c, s0, s', ReturnZone(t));
  }

  /** and lists the zone and publishes the id. */
  lemma FillPublish(c: Config, s0: State, s: State, t: nat, id: Id, z: nat) returns (s': State)
    requires c.Valid() && Three(c) && Init(c, s0) && Reaches(c, s0, s) && NoneWaits(s)
    requires t < |s.pc| && s.pc[t] == Returned(id, Loc(z, 0)) && id in s.cmap.entry
    ensures Reaches(c, s0, s') && s'.pc == s.pc[t := Done(id, Some(c.Source(id)))] && s'.zsm == s.zsm
    ensures s'.lru == s.lru + [z] && s'.cmap.entry.Keys == s.cmap.entry.Keys
    ensures |s'.cmap.inverse| == |s.cmap.inverse|
  {
    s' := Advance(c, s0, s, PolicyWrite(t));
    var m := s';
    assert WakeAll(m.pc, id) == m.pc;
    s' := Advance(c, s0, m, Insert(t));
  }

  lemma Fill(c: Config, s0: State, s: State, t: nat, id: Id, z: nat, rest: seq<nat>, lru: seq<nat>, n: nat)
      returns (s': State)
    requires c.Valid() && Three(c) && Init(c, s0) && Reaches(c, s0, s) && NoneWaits(s)
    requires Still(s, [z] + rest, lru, n) && id >= n && t < |s.pc| && AtRest(s.pc[t])
    ensures Reaches(c, s0, s') && Still(s', rest, lru + [z], id + 1) && NoneWaits(s')
    ensures s'.pc == s.pc[t := Done(id, Some(c.Source(id)))]
  {
    var a := FillGrant(c, s0, s, t, id, z, rest, lru, n);
    var b := FillWrite(c, s0, a, t, id, z);
    assert NoneWaits(b);
    s' := FillPublish(c, s0, b, t, id, z);
    assert s'.pc == s.pc[t := Done(id, Some(c.Source(id)))];
  }

  /** A get of a new id has to find itself a slot. */
  lemma LooksNew(c: Config, s0: State, s: State, t: nat, id: Id, free: seq<nat>, lru: seq<nat>, n: nat)
      returns (s': State)
    requires c.Valid() && Init(c, s0) && Reaches(c, s0, s)
    requires Still(s, free, lru, n) && id >= n && t < |s.pc| && AtRest(s.pc[t])
    ensures Reaches(c, s0, s') && Still(s', free, lru, id + 1) && id in s'.cmap.entry
    ensures s'.pc == s.pc[t := Seeking(id)]
  {
    s' := Advance(c, s0, s, Find(t, id));
  }

  lemma ToldSo(c: Config, s0: State, s: State, t: nat, id: Id, lru: seq<nat>, n: nat) returns (s': State)
    requires c.Valid() && Init(c, s0) && Reaches(c, s0, s)
    requires Still(s, [], lru, n) && t < |s.pc| && s.pc[t] == Seeking(id)
    ensures Reaches(c, s0, s') && Still(s', [], lru, n) && s'.pc == s.pc[t := EvictEntry(Some(id))]
  {
    s' := Advance(c, s0, s, GetSlot(t));
  }

  /** Every zone is full: a get of another id is told to evict. */
  lemma ToldToEvict(c: Config, s0: State, s: State, t: nat, id: Id, lru: seq<nat>, n: nat) returns (s': State)
    requires c.Valid() && Init(c, s0) && Reaches(c, s0, s)
    requires Still(s, [], lru, n) && id >= n && t < |s.pc| && AtRest(s.pc[t])
    ensures Reaches(c, s0, s') && Still(s', [], lru, id + 1) && s'.pc == s.pc[t := EvictEntry(Some(id))]
  {
    var m := LooksNew(c, s0, s, t, id, [], lru, n);
    s' := ToldSo(c, s0, m, t, id, lru, id + 1);
  }

  lemma Counts(c: Config, s0: State, s: State, t: nat, budget: nat) returns (s': State)
    requires c.Valid() && Init(c, s0) && Reaches(c, s0, s) && t < |s.pc| && s.pc[t].EvictEntry?
    requires budget == Sub32(c.low, |s.zsm.free|)
    ensures Reaches(c, s0, s') && s' == s.(pc := s.pc[t := Evicting(s.pc[t].resume, budget)])
  {
    s' := Advance(c, s0, s, CountFree(t));
  }

  /** Nobody holds a slot or pins a zone. */
  predicate Clear(s: State) {
    forall t :: 0 <= t < |s.pc| ==> s.pc[t].Slot().None? && !s.pc[t].Pins()
  }

  lemma ClearReady(c: Config, s0: State, s: State)
    requires c.Valid() && Init(c, s0) && Reaches(c, s0, s) && Clear(s) && s.lru != []
    ensures HeadReady(s.zsm, s.cmap, s.lru, s.pc)
  {
    ReachedInv(c, s0, s);
    PlacedIsFull(c, s, s.lru[0]);
    CountZero(s.pc, Pinner(s.lru[0]));
  }

  lemma ReachesRound(c: Config, s: State, t: nat, r: Option<Id>, b: nat) returns (s': State)
    requires HeadReady(s.zsm, s.cmap, s.lru, s.pc) && Apart(s, t, s.pc, Evicting(r, b + 1))
    ensures Reaches(c, s, s') && Apart(s', t, s.pc, Evicting(r, b))
    ensures s'.zsm == Z.Reset(s.zsm, s.lru[0]) && s'.lru == s.lru[1..] && s'.cmap == M.ClearZone(s.cmap, s.lru[0])
  {
    s' := EvictRound(c, s, t, s.pc, r, b);
    LeadsReaches(c, s, s');
  }

  /** One round of an evictor's loop. */
  lemma EvictsOne(c: Config, s0: State, s: State, t: nat, r: Option<Id>, b: nat,
                  z: nat, free: seq<nat>, rest: seq<nat>, n: nat) returns (s': State)
    requires c.Valid() && Init(c, s0) && Reaches(c, s0, s) && Clear(s) && Still(s, free, [z] + rest, n)
    requires t < |s.pc| && s.pc[t] == Evicting(r, b + 1)
    ensures Reaches(c, s0, s') && Still(s', free + [z], rest, n) && s'.pc == s.pc[t := Evicting(r, b)]
  {
    ClearReady(c, s0, s);
    s' := ReachesRound(c, s, t, r, b);
    ReachesTrans(c, s0, s, s');
  }

  lemma {:induction false} OngoingGuarded(c: Config, s: State, steps: seq<Step>, s': State)
    requires Path(Ongoing(c), s, steps, s')
    ensures Path(Guarded(c), s, steps, s')
    decreases |steps|
  {
    if steps != [] {
      var m :| Ongoing(c)(s, steps[0], m) && Path(Ongoing(c), m, steps[1..], s');
      OngoingGuarded(c, m, steps[1..], s');
      assert Guarded(c)(s, steps[0], m);
    }
  }

  lemma LeadsReaches(c: Config, s: State, s': State)
    requires Leads(c, s, s')
    ensures Reaches(c, s, s')
  {
    var steps :| Path(Ongoing(c), s, steps, s');
    OngoingGuarded(c, s, steps, s');
  }

  /** Threads that are all evicting hold nothing. */
  lemma EvictorsClear(s: State)
    requires |s.pc| == 3 && forall t :: 0 <= t < 3 ==> s.pc[t].EvictEntry? || s.pc[t].Evicting?
    ensures Clear(s)
  {
  }

  /** One thread fills the three zones. */
  lemma AllFilled(c: Config, s0: State) returns (s: State)
    requires c.Valid() && Three(c) && Init(c, s0) && |s0.pc| == 3
    ensures Reaches(c, s0, s) && Still(s, [], [0, 1, 2], 3)
    ensures |s.pc| == 3 && forall t :: 0 <= t < 3 ==> AtRest(s.pc[t])
  {
    assert Path(Guarded(c), s0, [], s0);
    assert Still(s0, [0] + [1, 2], [], 0);
    s := Fill(c, s0, s0, 0, 0, 0, [1, 2], [], 0);
    assert Still(s, [1] + [2], [0], 1);
    s := Fill(c, s0, s, 0, 1, 1, [2], [0], 1);
    assert Still(s, [2] + [], [0, 1], 2);
    s := Fill(c, s0, s, 0, 2, 2, [], [0, 1], 2);
    assert Still(s, [], [0, 1, 2], 3);
  }

  /** Three gets find every zone full. */
  lemma AllTold(c: Config, s0: State) returns (s: State)
    requires c.Valid() && Three(c) && Init(c, s0) && |s0.pc| == 3
    ensures Reaches(c, s0, s) && Still(s, [], [0, 1, 2], 6)
    ensures s.pc == [EvictEntry(Some(3)), EvictEntry(Some(4)), EvictEntry(Some(5))]
  {
    s := AllFilled(c, s0);
    s := ToldToEvict(c, s0, s, 0, 3, [0, 1, 2], 3);
    s := ToldToEvict(c, s0, s, 1, 4, [0, 1, 2], 4);
    s := ToldToEvict(c, s0, s, 2, 5, [0, 1, 2], 5);
  }

  /** What the threshold of one leaves to evict, with no zone free and with two. */
  lemma Differences()
    ensures Sub32(1, 0) == 1 && Sub32(1, 2) == TWO32 - 1
  {
    Sub32Meaning(1, 0);
    Sub32Meaning(1, 2);
  }

  /** Two of them count the free zones, and find none. */
  lemma TwoCount(c: Config, s0: State) returns (s: State)
    requires c.Valid() && Three(c) && Init(c, s0) && |s0.pc| == 3
    ensures Reaches(c, s0, s) && Still(s, [], [0, 1, 2], 6)
    ensures s.pc == [Evicting(Some(3), 1), Evicting(Some(4), 1), EvictEntry(Some(5))]
  {
    Differences();
    s := AllTold(c, s0);
    s := Counts(c, s0, s, 0, 1);
    s := Counts(c, s0, s, 1, 1);
  }

  /** The first frees a zone, */
  lemma OneEvicts(c: Config, s0: State) returns (s: State)
    requires c.Valid() && Three(c) && Init(c, s0) && |s0.pc| == 3
    ensures Reaches(c, s0, s) && Still(s, [0], [1, 2], 6)
    ensures s.pc == [Evicting(Some(3), 0), Evicting(Some(4), 1), EvictEntry(Some(5))]
  {
    s := TwoCount(c, s0);
    assert Still(s, [], [0] + [1, 2], 6);
    EvictorsClear(s);
    s := EvictsOne(c, s0, s, 0, Some(3), 0, 0, [], [1, 2], 6);
    assert [] + [0] == [0];
  }

  /** and so does the second. */
  lemma TwoEvict(c: Config, s0: State) returns (s: State)
    requires c.Valid() && Three(c) && Init(c, s0) && |s0.pc| == 3
    ensures Reaches(c, s0, s) && Still(s, [0, 1], [2], 6)
    ensures s.pc == [Evicting(Some(3), 0), Evicting(Some(4), 0), EvictEntry(Some(5))]
  {
    s := OneEvicts(c, s0);
    assert Still(s, [0], [1] + [2], 6);
    EvictorsClear(s);
    s := EvictsOne(c, s0, s, 1, Some(4), 0, 1, [0], [2], 6);
    assert [0] + [1] == [0, 1];
  }

  /** A call that counts two free zones and wants one goes on to evict the zone that is left. */
  lemma LastCall(c: Config, s: State) returns (s': State)
    requires c.low == 1 && |s.zsm.free| == 2 && |s.pc| == 3 && s.pc[2] == EvictEntry(Some(5))
    requires |s.lru| == 1 && HeadReady(s.zsm, s.cmap, s.lru, s.pc)
    ensures Reaches(c, s, s') && s'.pc == s.pc[2 := Evicting(Some(5), TWO32 - 2)]
    ensures s'.lru == [] && s'.zsm.free == s.zsm.free + s.lru
  {
    Differences();
    var m := FreeCounted(c, s, 2, s.pc, 5, TWO32 - 1);
    s' := EvictRound(c, m, 2, s.pc, Some(5), TWO32 - 2);
    LeadsTrans(c, s, m, s');
    LeadsReaches(c, s, s');
  }

  /** The three gets are at it, and the last is still to count. */
  lemma TwoEvictReady(c: Config, s0: State) returns (s: State)
    requires c.Valid() && Three(c) && Init(c, s0) && |s0.pc| == 3
    ensures Reaches(c, s0, s) && |s.zsm.free| == 2 && s.lru == [2] && HeadReady(s.zsm, s.cmap, s.lru, s.pc)
    ensures s.pc == [Evicting(Some(3), 0), Evicting(Some(4), 0), EvictEntry(Some(5))]
  {
    s := TwoEvict(c, s0);
    EvictorsClear(s);
    ClearReady(c, s0, s);
  }

  /**
   * From the initial state of a cache that wants one zone free, three gets reach a point
   * where two have evicted and the third is to count the free zones, and finds two. The
   * difference wraps to nearly 2^32, and that one call goes on to evict what is left.
   */
  lemma OvershootHappens(c: Config, s0: State) returns (before: State, after: State)
    requires c.Valid() && Three(c) && Init(c, s0) && |s0.pc| == 3
    ensures Reaches(c, s0, before) && Reached(before, CountFree(2)) && |before.zsm.free| == 2 > c.low
    ensures |before.pc| == 3 && (forall t :: 0 <= t < 3 ==> before.pc[t].Owns().Some?) && before.lru != []
    ensures Reaches(c, before, after) && after.pc == before.pc[2 := Evicting(before.pc[2].resume, TWO32 - 2)]
    ensures after.lru == [] && |after.zsm.free| == c.numZones
  {
    before := TwoEvictReady(c, s0);
    after := LastCall(c, before);
  }
}
