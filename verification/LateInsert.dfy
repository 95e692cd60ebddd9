/**
 * Why publish-before-evict is needed. `zn_cache_get` returns its zone and tells the policy
 * before it publishes the id, so a zone can be evicted while an id of it is still to be
 * published. Clearing a zone is safe exactly when no such id is outstanding.
 */
module LateInsert {
  import opened Types
  import opened Counting
  import opened Paths
  import opened Reachability
  import opened Machine
  import opened Invariants
  import opened Concurrency
  import Z = ZoneSpec
  import M = MapSpec

  /** Every buffer read in this state is the source's. */
  predicate Honest(c: Config, s: State) {
    forall t :: 0 <= t < |s.pc| && s.pc[t].Fetched? && s.pc[t].data.Some? ==> s.pc[t].data.value == c.Source(s.pc[t].id)
  }

  /** The situation the bad run goes through: `e` has cleared `z` while `w` still holds a slot of it. */
  ghost predicate Late(c: Config, s: State, e: nat, w: nat, z: nat) {
    && Shape(c, s) && Pins(s) && IsFull(s, z)
    && e < |s.pc| && w < |s.pc| && s.pc[e].Cleared? && s.pc[e].victim == z
    && (s.pc[w].Returned? || s.pc[w].Publishing?) && s.pc[w].loc.zone == z
    && M.IsCond(s.cmap, s.pc[w].id) && !M.Occupied(s.cmap, s.pc[w].loc)
    && (forall t :: 0 <= t < |s.pc| && s.pc[t].Pins() ==> s.pc[t].loc.zone < c.numZones)
  }

  predicate LetsGo(s: State, step: Step, z: nat) {
    (step.Read? || step.PolicyRead? || step.Unpin?) && Reached(s, step) && s.pc[step.t].PinsZone(z)
  }

  lemma LetsGoAsserted(c: Config, s: State, step: Step, e: nat, w: nat, z: nat)
    requires Late(c, s, e, w, z) && LetsGo(s, step, z)
    ensures Asserted(s, step)
  {
  }

  /** A step of a pinning thread keeps the situation. */
  lemma StillLate(c: Config, s: State, step: Step, e: nat, w: nat, z: nat)
    requires Late(c, s, e, w, z) && LetsGo(s, step, z) && Asserted(s, step)
    ensures Late(c, Apply(c, s, step), e, w, z)
  {
    KeepsShape(c, s, step);
    KeepsPins(c, s, step);
  }

  lemma LessWork(c: Config, s: State, step: Step, z: nat)
    requires LetsGo(s, step, z) && Asserted(s, step)
    ensures Work(Apply(c, s, step), z) == Work(s, z) - 1
  {
    var t, s' := step.t, Apply(c, s, step);
    OneThreadMoves(c, s, step);
    PinnerStep(c, s, step, z);
    CountsMove(s, s', t, Unread(z));
    CountsMove(s, s', t, Untold(z));
    CountsMove(s, s', t, Pinner(z));
  }

  lemma SomeoneLetsGo(c: Config, s: State, e: nat, w: nat, z: nat) returns (step: Step)
    requires Late(c, s, e, w, z) && s.cmap.readers[z] > 0
    ensures LetsGo(s, step, z)
  {
    CountZero(s.pc, Pinner(z));
    var t :| 0 <= t < |s.pc| && Pinner(z)(s.pc[t]);
    step := if s.pc[t].Pinned? then Read(t, true) else if s.pc[t].Fetched? then PolicyRead(t) else Unpin(t);
  }

  lemma {:induction false} ReadersLeave(c: Config, s: State, e: nat, w: nat, z: nat) returns (s': State)
    requires Late(c, s, e, w, z)
    ensures Reaches(c, s, s') && Late(c, s', e, w, z) && s'.cmap.readers[z] <= 0
    decreases Work(s, z)
  {
    if s.cmap.readers[z] > 0 {
      var step := SomeoneLetsGo(c, s, e, w, z);
      LetsGoAsserted(c, s, step, e, w, z);
      var m := Apply(c, s, step);
      StillLate(c, s, step, e, w, z);
      LessWork(c, s, step, z);
      ReachesStep(c, s, step, m);
      s' := ReadersLeave(c, m, e, w, z);
      ReachesTrans(c, s, m, s');
    } else {
      s' := s;
      assert Path(Guarded(c), s, [], s);
    }
  }

  /** A slot's worth of bytes that is not the source's data for `id`. */
  ghost function Junk(c: Config, id: Id): (d: Bytes)
    requires c.Valid()
    ensures |d| == |c.Source(id)| && d != c.Source(id)
  {
    var good := c.Source(id);
    var first: Byte := (good[0] as int + 1) % 256;
    var bad: Bytes := [first] + good[1..];
    assert bad[0] != good[0];
    bad
  }

  /** With the readers gone, the evictor resets the zone under the unpublished slot. */
  lemma EvictorResets(c: Config, s: State, e: nat, w: nat, z: nat) returns (s': State)
    requires Late(c, s, e, w, z) && s.cmap.readers[z] <= 0
    ensures Reaches(c, s, s') && s'.cmap == s.cmap && |s'.pc| == |s.pc| && s'.pc[w] == s.pc[w]
    ensures Content(s'.disk, s.pc[w].loc) == Junk(c, s.pc[w].id)
  {
    var m := Apply(c, s, Drain(e));
    ReachesStep(c, s, Drain(e), m);
    var step := Reset(e, map[s.pc[w].loc := Junk(c, s.pc[w].id)]);
    s' := Apply(c, m, step);
    ReachesStep(c, m, step, s');
    ReachesTrans(c, s, m, s');
  }

  /** The writer then publishes its id. */
  lemma WriterPublishes(c: Config, s: State, w: nat) returns (s': State)
    requires w < |s.pc| && s.pc[w].Publishing? && M.TwoWay(s.cmap)
    requires M.IsCond(s.cmap, s.pc[w].id) && !M.Occupied(s.cmap, s.pc[w].loc) && s.pc[w].loc.zone < |s.cmap.inverse|
    ensures Reaches(c, s, s') && s'.disk == s.disk && M.TwoWay(s'.cmap)
    ensures |s'.pc| == |s.pc| && s'.pc[w].Done? && M.Maps(s'.cmap, s.pc[w].id, s.pc[w].loc)
  {
    s' := Apply(c, s, Insert(w));
    ReachesStep(c, s, Insert(w), s');
    M.InsertKeepsIff(s.cmap, s.pc[w].id, s.pc[w].loc);
  }

  lemma PolicyFirst(c: Config, s: State, w: nat) returns (s': State)
    requires w < |s.pc| && (s.pc[w].Returned? || s.pc[w].Publishing?)
    ensures Reaches(c, s, s') && s'.cmap == s.cmap && s'.disk == s.disk
    ensures |s'.pc| == |s.pc| && s'.pc[w] == Publishing(s.pc[w].id, s.pc[w].loc)
  {
    if s.pc[w].Publishing? {
      s' := s;
      assert Path(Guarded(c), s, [], s);
    } else {
      s' := Apply(c, s, PolicyWrite(w));
      ReachesStep(c, s, PolicyWrite(w), s');
    }
  }

  /** Looking the id up again reads whatever the slot holds. */
  lemma LooksUp(c: Config, s: State, w: nat, id: Id, l: Loc) returns (s': State)
    requires w < |s.pc| && s.pc[w].Done? && M.TwoWay(s.cmap) && M.Maps(s.cmap, id, l)
    ensures Reaches(c, s, s') && |s'.pc| == |s.pc| && s'.pc[w] == Fetched(id, l, Some(Content(s.disk, l)))
  {
    var m := Apply(c, s, Find(w, id));
    ReachesStep(c, s, Find(w, id), m);
    s' := Apply(c, m, Read(w, true));
    ReachesStep(c, m, Read(w, true), s');
    ReachesTrans(c, s, m, s');
  }

  /** From the late situation a get can be made to return data that is not its id's. */
  lemma LateReadsJunk(c: Config, s: State, e: nat, w: nat, z: nat) returns (s': State)
    requires Late(c, s, e, w, z)
    ensures Reaches(c, s, s') && !Honest(c, s')
  {
    var a := ReadersLeave(c, s, e, w, z);
    var id, l := a.pc[w].id, a.pc[w].loc;
    var b := EvictorResets(c, a, e, w, z);
    var d := PolicyFirst(c, b, w);
    var f := WriterPublishes(c, d, w);
    s' := LooksUp(c, f, w, id, l);
    ReachesTrans(c, s, a, b);
    ReachesTrans(c, s, b, d);
    ReachesTrans(c, s, d, f);
    ReachesTrans(c, s, f, s');
    assert s'.pc[w].data.value != c.Source(id);
  }

  /** What holds of an evictor about to clear a zone of which `w` holds an unpublished slot. */
  ghost predicate AboutToClear(c: Config, s: State, e: nat, w: nat) {
    && e < |s.pc| && s.pc[e].Popped? && w < |s.pc| && IsFull(s, s.pc[e].victim)
    && (s.pc[w].Returned? || s.pc[w].Publishing?) && s.pc[w].loc.zone == s.pc[e].victim
    && M.IsCond(s.cmap, s.pc[w].id)
    && (forall t :: 0 <= t < |s.pc| && s.pc[t].Pins() ==> s.pc[t].loc.zone < c.numZones)
  }

  lemma ClearFacts(c: Config, s: State, e: nat, w: nat)
    requires Inv(c, s) && e < |s.pc| && s.pc[e].Popped? && w < |s.pc|
    requires s.pc[w].Slot().Some? && s.pc[w].loc.zone == s.pc[e].victim
    ensures AboutToClear(c, s, e, w)
  {
    VictimIsFull(c, s, e);
    assert SlotAt(s, s.pc[w]);
    assert M.IsCond(s.cmap, s.pc[w].Owns().value);
  }

  lemma ClearedIsLate(c: Config, s: State, e: nat, w: nat)
    requires Shape(c, s) && Pins(s) && AboutToClear(c, s, e, w) && Asserted(s, ClearZone(e))
    ensures Late(c, Apply(c, s, ClearZone(e)), e, w, s.pc[e].victim)
  {
    KeepsShape(c, s, ClearZone(e));
    KeepsPins(c, s, ClearZone(e));
    M.ClearZoneKeeps(s.cmap, s.pc[e].victim);
  }

  /** Clearing a zone with an unpublished slot leads to the late situation. */
  lemma ClearingMakesLate(c: Config, s: State, e: nat, w: nat)
    requires Inv(c, s) && e < |s.pc| && s.pc[e].Popped? && w < |s.pc|
    requires s.pc[w].Slot().Some? && s.pc[w].loc.zone == s.pc[e].victim
    ensures Asserted(s, ClearZone(e))
    ensures Late(c, Apply(c, s, ClearZone(e)), e, w, s.pc[e].victim)
  {
    AssertionsHold(c, s, ClearZone(e));
    ClearFacts(c, s, e, w);
    ClearedIsLate(c, s, e, w);
  }

  /**
   * Publish-before-evict is exact. In any state satisfying the invariant, an evictor about
   * to clear its zone may do so, with every later step respecting the rule, without any
   * get ever fetching wrong data, if and only if no thread holds an unpublished slot of
   * that zone.
   */
  lemma SafeToClearIff(c: Config, s: State, e: nat)
    requires Inv(c, s) && e < |s.pc| && s.pc[e].Popped?
    ensures Asserted(s, ClearZone(e))
    ensures Published(s, s.pc[e].victim) <==>
            forall s' :: Reaches(c, Apply(c, s, ClearZone(e)), s') ==> Honest(c, s')
  {
    AssertionsHold(c, s, ClearZone(e));
    var s1 := Apply(c, s, ClearZone(e));
    if Published(s, s.pc[e].victim) {
      NextKeepsInv(c, s, ClearZone(e), s1);
      forall s' | Reaches(c, s1, s') ensures Honest(c, s') {
        ReachedIsHonest(c, s1, s');
      }
    } else {
      var w :| 0 <= w < |s.pc| && s.pc[w].Slot().Some? && s.pc[w].Slot().value.zone == s.pc[e].victim;
      ClearingMakesLate(c, s, e, w);
      var bad := LateReadsJunk(c, s1, e, w, s.pc[e].victim);
    }
  }

  lemma ReachedIsHonest(c: Config, s: State, s': State)
    requires Inv(c, s) && Reaches(c, s, s')
    ensures Honest(c, s')
  {
    var steps :| Path(Guarded(c), s, steps, s');
    PathInv(c, s, steps, s');
    forall t | 0 <= t < |s'.pc| && s'.pc[t].Fetched? && s'.pc[t].data.Some?
      ensures s'.pc[t].data.value == c.Source(s'.pc[t].id)
    {
      assert DataAt(c, s', s'.pc[t]);
    }
  }

  /** The configuration of the witness: one zone of one chunk, two threads. */
  predicate Tiny(c: Config) {
    c.numZones == 1 && c.maxChunks == 1 && 1 <= c.low < TWO32
  }

  lemma WriterStarts(c: Config, s0: State, id: Id) returns (s: State)
    requires c.Valid() && Tiny(c) && Init(c, s0) && |s0.pc| == 2
    ensures Reaches(c, s0, s) && s.pc == [Writing(id, Loc(0, 0)), Idle] && s.lru == []
    ensures s.zsm.zone == [Z.Zone(Z.Writing, 0)] && s.zsm.free == [] && s.zsm.maxChunks == 1
  {
    assert Path(Guarded(c), s0, [], s0);
    s := Advance(c, s0, s0, Find(0, id));
    assert s.pc == [Seeking(id), Idle] && s.zsm == s0.zsm && s.zsm.free == [0];
    s := Advance(c, s0, s, GetSlot(0));
  }

  lemma WriterReturns(c: Config, s0: State, id: Id) returns (s: State)
    requires c.Valid() && Tiny(c) && Init(c, s0) && |s0.pc| == 2
    ensures Reaches(c, s0, s) && s.pc == [Returned(id, Loc(0, 0)), Idle] && s.lru == [] && s.zsm.free == []
  {
    s := WriterStarts(c, s0, id);
    s := Advance(c, s0, s, WriteOk(0));
    s := Advance(c, s0, s, ReturnZone(0));
  }

  /** A thread writes the only slot of the zone and stops just short of publishing it. */
  lemma WriterStopsShort(c: Config, s0: State, id: Id) returns (s: State)
    requires c.Valid() && Tiny(c) && Init(c, s0) && |s0.pc| == 2
    ensures Reaches(c, s0, s) && s.pc == [Publishing(id, Loc(0, 0)), Idle] && s.lru == [0] && s.zsm.free == []
  {
    s := WriterReturns(c, s0, id);
    s := Advance(c, s0, s, PolicyWrite(0));
  }

  lemma EvictorStarts(c: Config, s0: State, id: Id) returns (s: State)
    requires c.Valid() && Tiny(c) && Init(c, s0) && |s0.pc| == 2
    ensures Reaches(c, s0, s) && s.lru == [0]
    ensures s.pc == [Publishing(id, Loc(0, 0)), Evicting(None, Sub32(c.low, 0))]
  {
    s := WriterStopsShort(c, s0, id);
    s := Advance(c, s0, s, EvictBegin(1));
    s := Advance(c, s0, s, CountFree(1));
  }

  lemma EvictorPops(c: Config, s0: State, id: Id) returns (s: State)
    requires c.Valid() && Tiny(c) && Init(c, s0) && |s0.pc| == 2
    ensures Reaches(c, s0, s) && s.pc == [Publishing(id, Loc(0, 0)), Popped(None, c.low - 1, 0)]
  {
    s := EvictorStarts(c, s0, id);
    Sub32Meaning(c.low, 0);
    s := Advance(c, s0, s, EvictPop(1));
  }

  /**
   * The program as written can break transparency: from the initial state of a cache with
   * one zone of one chunk, two threads reach a point where clearing the zone, which the
   * code does without further check, leads to a get that fetches data that is not its id's.
   */
  lemma LateInsertHappens(c: Config, s0: State, id: Id) returns (s: State, bad: State)
    requires c.Valid() && Tiny(c) && Init(c, s0) && |s0.pc| == 2
    ensures Reaches(c, s0, s) && Reached(s, ClearZone(1)) && Asserted(s, ClearZone(1))
    ensures Reaches(c, Apply(c, s, ClearZone(1)), bad) && !Honest(c, bad)
  {
    s := EvictorPops(c, s0, id);
    ReachedInv(c, s0, s);
    ClearingMakesLate(c, s, 1, 0);
    bad := LateReadsJunk(c, Apply(c, s, ClearZone(1)), 1, 0, 0);
  }
}
