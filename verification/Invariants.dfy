/** What every reachable state of the concurrent machine satisfies. */
module Invariants {
  import opened Types
  import opened Counting
  import opened LruSpec
  import opened Machine
  import Z = ZoneSpec
  import M = MapSpec

  /** Both managers' own invariants, over the configured zones. */
  ghost predicate Shape(c: Config, s: State) {
    && c.Valid()
    && Z.Inv(s.zsm) && M.TwoWay(s.cmap)
    && |s.zsm.zone| == |s.cmap.inverse| == c.numZones
    && s.zsm.maxChunks == c.maxChunks
  }

  /** An id is marked as being written iff exactly one thread owns its write; only such ids are waited for. */
  ghost predicate Owners(s: State) {
    && (forall t :: 0 <= t < |s.pc| && s.pc[t].Owns().Some? ==> M.IsCond(s.cmap, s.pc[t].Owns().value))
    && (forall t, u :: 0 <= t < u < |s.pc| && s.pc[t].Owns().Some? ==> s.pc[t].Owns() != s.pc[u].Owns())
    && (forall id: Id :: M.IsCond(s.cmap, id) ==> exists t :: 0 <= t < |s.pc| && s.pc[t].Owns() == Some(id))
    && (forall t :: 0 <= t < |s.pc| && s.pc[t].Waiting? ==> M.IsCond(s.cmap, s.pc[t].id))
  }

  /** A slot written and returned since its zone's last reset. */
  predicate Settled(s: State, l: Loc) {
    l.zone < |s.zsm.zone| && l.chunk < Z.Filled(s.zsm, l.zone)
  }

  /** Unpublished slots: in flight or settled, not in the map, and no two threads share one. */
  ghost predicate Slots(s: State) {
    && (forall t :: 0 <= t < |s.pc| ==> SlotAt(s, s.pc[t]))
    && (forall t, u :: 0 <= t < u < |s.pc| && s.pc[t].Slot().Some? ==> s.pc[t].Slot() != s.pc[u].Slot())
    && (forall z :: 0 <= z < |s.zsm.zone| && s.zsm.zone[z].cond == Z.Writing ==>
          exists t :: 0 <= t < |s.pc| && s.pc[t].Flying() && s.pc[t].loc.zone == z)
  }

  ghost predicate SlotAt(s: State, pc: PC) {
    pc.Slot().Some? ==>
      && (if pc.Flying() then Z.InFlight(s.zsm, pc.loc) else Settled(s, pc.loc))
      && !M.Occupied(s.cmap, pc.loc)
  }

  /** Published and pinned slots are settled. */
  ghost predicate Placed(s: State) {
    && (forall z, k :: M.Occupied(s.cmap, Loc(z, k)) ==> Settled(s, Loc(z, k)))
    && (forall t :: 0 <= t < |s.pc| && s.pc[t].Pins() ==> Settled(s, s.pc[t].loc))
  }

  /** The reader count of a zone is the number of threads pinning it. */
  ghost predicate Pins(s: State) {
    forall z :: 0 <= z < |s.cmap.readers| ==> s.cmap.readers[z] == PinCount(s, z)
  }

  ghost function Pinner(z: nat): PC -> bool {
    (p: PC) => p.PinsZone(z)
  }

  ghost function PinCount(s: State, z: nat): nat {
    Count(s.pc, Pinner(z))
  }

  ghost predicate Holds(c: Config, s: State, l: Loc, id: Id) {
    Content(s.disk, l) == c.Source(id)
  }

  /** Every published, pinned or written slot holds its id's data, and so does every buffer. */
  ghost predicate Data(c: Config, s: State) {
    && (forall id :: id in s.cmap.entry && s.cmap.entry[id].At? ==> Holds(c, s, s.cmap.entry[id].loc, id))
    && (forall t :: 0 <= t < |s.pc| ==> DataAt(c, s, s.pc[t]))
  }

  ghost predicate DataAt(c: Config, s: State, pc: PC) {
    && (pc.Pins() || pc.Written? || pc.Returned? || pc.Publishing? ==> Holds(c, s, pc.loc, pc.id))
    && ((pc.Fetched? || pc.Leaving? || pc.Done?) && pc.data.Some? ==> pc.data.value == c.Source(pc.id))
  }

  /** `pc` has charge of zone `z`: filled and not yet listed, or popped and not yet reset. */
  ghost function Keeper(maxChunks: nat, z: nat): PC -> bool {
    (p: PC) => p.Victim() == Some(z) || p.Unlisted(maxChunks) == Some(z)
  }

  /** How many times a zone is on the LRU list or in the charge of some thread. */
  ghost function Places(c: Config, s: State, z: nat): nat {
    multiset(s.lru)[z] + Count(s.pc, Keeper(c.maxChunks, z))
  }

  predicate IsFull(s: State, z: nat) {
    z < |s.zsm.zone| && s.zsm.zone[z].cond == Z.Full
  }

  /** A FULL zone is in exactly one place, any other zone in none. */
  ghost predicate Lists(c: Config, s: State) {
    forall z: nat :: Places(c, s, z) == if IsFull(s, z) then 1 else 0
  }

  /** A cleared zone has nothing in the map and nothing to be published; a drained one has no reader. */
  ghost predicate Clearing(s: State) {
    forall t :: 0 <= t < |s.pc| && (s.pc[t].Cleared? || s.pc[t].Drained?) ==>
      && s.pc[t].victim < |s.cmap.inverse|
      && s.cmap.inverse[s.pc[t].victim] == map[]
      && Published(s, s.pc[t].victim)
      && (s.pc[t].Drained? ==> forall u :: 0 <= u < |s.pc| ==> !s.pc[u].PinsZone(s.pc[t].victim))
  }

  ghost predicate Inv(c: Config, s: State) {
    Shape(c, s) && Owners(s) && Slots(s) && Placed(s) && Pins(s) && Data(c, s) && Lists(c, s) && Clearing(s)
  }

  lemma InitInv(c: Config, s: State)
    requires c.Valid() && Init(c, s)
    ensures Inv(c, s)
  {
    Z.InitialInv(c.numZones, c.maxActive, c.maxChunks);
    forall z: nat ensures PinCount(s, z) == 0 && Places(c, s, z) == 0 {
      CountZero(s.pc, Pinner(z));
      CountZero(s.pc, Keeper(c.maxChunks, z));
    }
  }

  lemma KeepsShape(c: Config, s: State, step: Step)
    requires Reached(s, step) && Asserted(s, step) && Shape(c, s)
    requires step.Insert? ==> !M.Occupied(s.cmap, s.pc[step.t].loc)
    ensures Shape(c, Apply(c, s, step))
  {
    var pc := s.pc[step.t];
    match step
    case Find(_, id) => M.FindKeeps(s.cmap, id);
    case GetSlot(_) => Z.GetActiveKeepsInv(s.zsm);
    case ReturnZone(_) => Z.ReturnKeepsInv(s.zsm, pc.loc);
    case UndoZone(_) => Z.FailKeepsInv(s.zsm, pc.loc);
    case Reset(_, _) => Z.ResetKeepsInv(s.zsm, pc.victim);
    case Insert(_) => M.InsertKeepsIff(s.cmap, pc.id, pc.loc);
    case UndoMap(_) => M.FailKeeps(s.cmap, pc.id);
    case ClearZone(_) => M.ClearZoneKeeps(s.cmap, pc.victim);
    case Unpin(_) => M.UnpinKeeps(s.cmap, pc.loc.zone);
    case _ =>
  }

  /** Every thread but `t` keeps its place, except that sleepers may have been woken. */
  ghost predicate OnlyMoves(s: State, s': State, t: nat) {
    && |s'.pc| == |s.pc|
    && forall u :: 0 <= u < |s.pc| && u != t ==>
         s'.pc[u] == s.pc[u] || (s.pc[u].Waiting? && s'.pc[u] == Woken(s.pc[u].id))
  }

  lemma OneThreadMoves(c: Config, s: State, step: Step)
    requires Reached(s, step) && Asserted(s, step)
    ensures OnlyMoves(s, Apply(c, s, step), step.t)
  {
  }

  lemma SameOwners(s: State, s': State, t: nat)
    requires Owners(s) && OnlyMoves(s, s', t) && t < |s.pc|
    requires s'.pc[t].Owns() == s.pc[t].Owns()
    requires forall id: Id :: M.IsCond(s'.cmap, id) <==> M.IsCond(s.cmap, id)
    requires s'.pc[t].Waiting? ==> M.IsCond(s'.cmap, s'.pc[t].id)
    ensures Owners(s')
  {
    assert forall u :: 0 <= u < |s.pc| && u != t ==> s'.pc[u].Owns() == s.pc[u].Owns();
    forall id: Id | M.IsCond(s'.cmap, id)
      ensures exists u :: 0 <= u < |s'.pc| && s'.pc[u].Owns() == Some(id)
    {
      var u :| 0 <= u < |s.pc| && s.pc[u].Owns() == Some(id);
      assert s'.pc[u].Owns() == Some(id);
    }
  }

  lemma GainsOwner(s: State, s': State, t: nat, id: Id)
    requires Owners(s) && OnlyMoves(s, s', t) && t < |s.pc|
    requires s.pc[t].Owns() == None && s'.pc[t].Owns() == Some(id)
    requires !M.IsCond(s.cmap, id)
    requires forall i: Id :: M.IsCond(s'.cmap, i) <==> M.IsCond(s.cmap, i) || i == id
    ensures Owners(s')
  {
    assert forall u :: 0 <= u < |s.pc| && u != t ==> s'.pc[u].Owns() == s.pc[u].Owns();
    forall i: Id | M.IsCond(s'.cmap, i)
      ensures exists u :: 0 <= u < |s'.pc| && s'.pc[u].Owns() == Some(i)
    {
      if i == id {
        assert s'.pc[t].Owns() == Some(i);
      } else {
        var u :| 0 <= u < |s.pc| && s.pc[u].Owns() == Some(i);
        assert s'.pc[u].Owns() == Some(i);
      }
    }
  }

  lemma LosesOwner(s: State, s': State, t: nat, id: Id)
    requires Owners(s) && OnlyMoves(s, s', t) && t < |s.pc|
    requires s.pc[t].Owns() == Some(id) && s'.pc[t].Owns() == None && !s'.pc[t].Waiting?
    requires forall u :: 0 <= u < |s.pc| ==> s'.pc[u] != Waiting(id)
    requires forall i: Id :: M.IsCond(s'.cmap, i) <==> M.IsCond(s.cmap, i) && i != id
    ensures Owners(s')
  {
    assert forall u :: 0 <= u < |s.pc| && u != t ==> s'.pc[u].Owns() == s.pc[u].Owns();
    forall i: Id | M.IsCond(s'.cmap, i)
      ensures exists u :: 0 <= u < |s'.pc| && s'.pc[u].Owns() == Some(i)
    {
      var u :| 0 <= u < |s.pc| && s.pc[u].Owns() == Some(i);
      assert s'.pc[u].Owns() == Some(i);
    }
  }

  lemma QuietForOwners(c: Config, s: State, step: Step)
    requires Reached(s, step) && Asserted(s, step)
    requires !step.Find? && !step.Insert? && !step.UndoMap?
    ensures var s' := Apply(c, s, step);
      && s'.pc[step.t].Owns() == s.pc[step.t].Owns() && !s'.pc[step.t].Waiting?
      && forall id: Id :: M.IsCond(s'.cmap, id) <==> M.IsCond(s.cmap, id)
  {
  }

  lemma FindOwners(c: Config, s: State, step: Step)
    requires Reached(s, step) && Asserted(s, step) && Owners(s) && step.Find?
    ensures Owners(Apply(c, s, step))
  {
    OneThreadMoves(c, s, step);
    if M.Find(s.cmap, step.id).1.Owner? {
      GainsOwner(s, Apply(c, s, step), step.t, step.id);
    } else {
      SameOwners(s, Apply(c, s, step), step.t);
    }
  }

  lemma EndOwners(c: Config, s: State, step: Step)
    requires Reached(s, step) && Asserted(s, step) && Owners(s)
    requires step.Insert? || step.UndoMap?
    ensures Owners(Apply(c, s, step))
  {
    OneThreadMoves(c, s, step);
    LosesOwner(s, Apply(c, s, step), step.t, s.pc[step.t].id);
  }

  lemma KeepsOwners(c: Config, s: State, step: Step)
    requires Reached(s, step) && Asserted(s, step) && Owners(s)
    ensures Owners(Apply(c, s, step))
  {
    if step.Find? {
      FindOwners(c, s, step);
    } else if step.Insert? || step.UndoMap? {
      EndOwners(c, s, step);
    } else {
      OneThreadMoves(c, s, step);
      QuietForOwners(c, s, step);
      SameOwners(s, Apply(c, s, step), step.t);
    }
  }

  // ---------- unpublished slots ----------

  lemma QuietForSlots(c: Config, s: State, step: Step)
    requires Reached(s, step) && Asserted(s, step)
    requires !step.GetSlot? && !step.ReturnZone? && !step.UndoZone? && !step.Insert? && !step.ClearZone? && !step.Reset?
    ensures var s' := Apply(c, s, step);
      && s'.zsm == s.zsm && s'.cmap.inverse == s.cmap.inverse
      && s'.pc[step.t].Slot() == s.pc[step.t].Slot() && s'.pc[step.t].Flying() == s.pc[step.t].Flying()
  {
  }

  lemma SameSlots(s: State, s': State, t: nat)
    requires Slots(s) && OnlyMoves(s, s', t) && t < |s.pc|
    requires s'.zsm == s.zsm && s'.cmap.inverse == s.cmap.inverse
    requires s'.pc[t].Slot() == s.pc[t].Slot() && s'.pc[t].Flying() == s.pc[t].Flying()
    ensures Slots(s')
  {
    assert forall u :: 0 <= u < |s.pc| ==> s'.pc[u].Slot() == s.pc[u].Slot() && s'.pc[u].Flying() == s.pc[u].Flying();
  }

  /** What a request for a slot does, apart from the queues. */
  lemma GetSlotEffect(c: Config, s: State, step: Step)
    requires Reached(s, step) && Asserted(s, step) && step.GetSlot?
    ensures var t, s', g := step.t, Apply(c, s, step), Z.GetActive(s.zsm).1;
      && s'.cmap == s.cmap && s'.lru == s.lru && s'.disk == s.disk && s'.zsm.maxChunks == s.zsm.maxChunks
      && if g.Granted? then
           && s'.pc[t] == Writing(s.pc[t].id, g.loc) && g.loc.zone < |s.zsm.zone|
           && s.zsm.zone[g.loc.zone].cond in {Z.Free, Z.Active} && g.loc.chunk == Z.Filled(s.zsm, g.loc.zone)
           && s'.zsm.zone == s.zsm.zone[g.loc.zone := Z.Zone(Z.Writing, g.loc.chunk)]
         else
           (s'.pc[t].Seeking? || s'.pc[t].EvictEntry?) && s'.zsm == s.zsm
  {
    Z.GetActiveKeepsInv(s.zsm);
  }

  lemma GrantSlots(s: State, s': State, t: nat, l: Loc)
    requires Slots(s) && Placed(s) && OnlyMoves(s, s', t) && t < |s.pc|
    requires s.pc[t].Slot() == None && s'.pc[t].Writing? && s'.pc[t].loc == l
    requires l.zone < |s.zsm.zone| && s.zsm.zone[l.zone].cond in {Z.Free, Z.Active}
    requires l.chunk == Z.Filled(s.zsm, l.zone)
    requires s'.zsm.zone == s.zsm.zone[l.zone := Z.Zone(Z.Writing, l.chunk)]
    requires s'.zsm.maxChunks == s.zsm.maxChunks && s'.cmap == s.cmap
    ensures Slots(s')
  {
    assert !M.Occupied(s.cmap, l) by {
      assert Loc(l.zone, l.chunk) == l;
    }
    forall u | 0 <= u < |s.pc| && u != t
      ensures s'.pc[u].Slot() == s.pc[u].Slot() && SlotAt(s', s'.pc[u]) && s.pc[u].Slot() != Some(l)
    {
      assert SlotAt(s, s.pc[u]);
    }
    forall z | 0 <= z < |s'.zsm.zone| && s'.zsm.zone[z].cond == Z.Writing
      ensures exists u :: 0 <= u < |s'.pc| && s'.pc[u].Flying() && s'.pc[u].loc.zone == z
    {
      if z == l.zone {
        assert s'.pc[t].Flying();
      } else {
        var u :| 0 <= u < |s.pc| && s.pc[u].Flying() && s.pc[u].loc.zone == z;
        assert s'.pc[u] == s.pc[u];
      }
    }
  }

  lemma GetSlotSlots(c: Config, s: State, step: Step)
    requires Reached(s, step) && Asserted(s, step) && Slots(s) && Placed(s) && step.GetSlot?
    ensures Slots(Apply(c, s, step))
  {
    GetSlotEffect(c, s, step);
    OneThreadMoves(c, s, step);
    if Z.GetActive(s.zsm).1.Granted? {
      GrantSlots(s, Apply(c, s, step), step.t, Z.GetActive(s.zsm).1.loc);
    } else {
      SameSlots(s, Apply(c, s, step), step.t);
    }
  }

  /** Leaving flight: the zone moves on, and its other slots are untouched. */
  lemma LandSlots(s: State, s': State, t: nat, l: Loc)
    requires Slots(s) && OnlyMoves(s, s', t) && t < |s.pc|
    requires s.pc[t].Flying() && s.pc[t].loc == l && l.zone < |s.zsm.zone| == |s'.zsm.zone|
    requires !s'.pc[t].Flying() && (s'.pc[t].Slot() == None || (s'.pc[t].Slot() == Some(l) && Settled(s', l)))
    requires s'.zsm.maxChunks == s.zsm.maxChunks && s'.cmap == s.cmap
    requires s'.zsm.zone == s.zsm.zone[l.zone := s'.zsm.zone[l.zone]]
    requires s'.zsm.zone[l.zone].cond != Z.Writing && l.chunk <= Z.Filled(s'.zsm, l.zone)
    ensures Slots(s')
  {
    assert SlotAt(s, s.pc[t]);
    forall u | 0 <= u < |s.pc| && u != t
      ensures s'.pc[u].Slot() == s.pc[u].Slot() && SlotAt(s', s'.pc[u])
    {
      assert SlotAt(s, s.pc[u]);
      assert s.pc[u].Slot().Some? ==> s.pc[u].Slot() != s.pc[t].Slot();
    }
    forall z | 0 <= z < |s'.zsm.zone| && s'.zsm.zone[z].cond == Z.Writing
      ensures exists u :: 0 <= u < |s'.pc| && s'.pc[u].Flying() && s'.pc[u].loc.zone == z
    {
      var u :| 0 <= u < |s.pc| && s.pc[u].Flying() && s.pc[u].loc.zone == z;
      assert s'.pc[u] == s.pc[u];
    }
  }

  /** What returning or failing a slot does to the zones. */
  lemma LandEffect(c: Config, s: State, step: Step)
    requires Reached(s, step) && Asserted(s, step) && (step.ReturnZone? || step.UndoZone?)
    ensures var l, s' := s.pc[step.t].loc, Apply(c, s, step);
      && s'.cmap == s.cmap && s'.lru == s.lru && s'.disk == s.disk && s'.zsm.maxChunks == s.zsm.maxChunks
      && l.zone < |s.zsm.zone| == |s'.zsm.zone| && s.zsm.zone[l.zone] == Z.Zone(Z.Writing, l.chunk)
      && s'.zsm.zone == s.zsm.zone[l.zone := s'.zsm.zone[l.zone]]
      && s'.zsm.zone[l.zone].cond == (if step.ReturnZone? && l.chunk + 1 == s.zsm.maxChunks then Z.Full else Z.Active)
      && Z.Filled(s'.zsm, l.zone) == if step.ReturnZone? then l.chunk + 1 else l.chunk
  {
    if step.ReturnZone? {
      Z.ReturnKeepsInv(s.zsm, s.pc[step.t].loc);
    } else {
      Z.FailKeepsInv(s.zsm, s.pc[step.t].loc);
    }
  }

  lemma ReturnSlots(c: Config, s: State, step: Step)
    requires Reached(s, step) && Asserted(s, step) && Slots(s) && (step.ReturnZone? || step.UndoZone?)
    ensures Slots(Apply(c, s, step))
  {
    LandEffect(c, s, step);
    OneThreadMoves(c, s, step);
    LandSlots(s, Apply(c, s, step), step.t, s.pc[step.t].loc);
  }

  lemma InsertSlots(c: Config, s: State, step: Step)
    requires Reached(s, step) && Asserted(s, step) && Slots(s) && step.Insert?
    ensures Slots(Apply(c, s, step))
  {
    var t, s' := step.t, Apply(c, s, step);
    forall u | 0 <= u < |s.pc| && u != t
      ensures s'.pc[u].Slot() == s.pc[u].Slot() && s'.pc[u].Flying() == s.pc[u].Flying() && SlotAt(s', s'.pc[u])
    {
      assert SlotAt(s, s.pc[u]);
      assert s.pc[u].Slot() != s.pc[t].Slot();
    }
  }

  lemma ClearSlots(c: Config, s: State, step: Step)
    requires Reached(s, step) && Asserted(s, step) && Slots(s) && step.ClearZone?
    ensures Slots(Apply(c, s, step))
  {
    var t, s' := step.t, Apply(c, s, step);
    forall u | 0 <= u < |s.pc|
      ensures s'.pc[u].Slot() == s.pc[u].Slot() && s'.pc[u].Flying() == s.pc[u].Flying() && SlotAt(s', s'.pc[u])
    {
      assert SlotAt(s, s.pc[u]);
    }
  }

  lemma ResetSlots(c: Config, s: State, step: Step)
    requires Reached(s, step) && Asserted(s, step) && Slots(s) && Clearing(s) && step.Reset?
    ensures Slots(Apply(c, s, step))
  {
    var t, s' := step.t, Apply(c, s, step);
    assert Published(s, s.pc[t].victim);
    forall u | 0 <= u < |s.pc|
      ensures s'.pc[u].Slot() == s.pc[u].Slot() && s'.pc[u].Flying() == s.pc[u].Flying() && SlotAt(s', s'.pc[u])
    {
      assert SlotAt(s, s.pc[u]);
    }
  }

  lemma KeepsSlots(c: Config, s: State, step: Step)
    requires Reached(s, step) && Asserted(s, step) && Slots(s) && Placed(s) && Clearing(s)
    ensures Slots(Apply(c, s, step))
  {
    if step.GetSlot? {
      GetSlotSlots(c, s, step);
    } else if step.ReturnZone? || step.UndoZone? {
      ReturnSlots(c, s, step);
    } else if step.Insert? {
      InsertSlots(c, s, step);
    } else if step.ClearZone? {
      ClearSlots(c, s, step);
    } else if step.Reset? {
      ResetSlots(c, s, step);
    } else {
      QuietForSlots(c, s, step);
      OneThreadMoves(c, s, step);
      SameSlots(s, Apply(c, s, step), step.t);
    }
  }

  // ---------- published and pinned slots are settled ----------

  lemma QuietForPlaced(c: Config, s: State, step: Step)
    requires Reached(s, step) && Asserted(s, step)
    requires !step.Find? && !step.GetSlot? && !step.ReturnZone? && !step.UndoZone?
    requires !step.Insert? && !step.ClearZone? && !step.Reset?
    ensures var s' := Apply(c, s, step);
      && s'.zsm == s.zsm && s'.cmap.inverse == s.cmap.inverse
      && (s'.pc[step.t].Pins() ==> s.pc[step.t].Pins() && s'.pc[step.t].loc == s.pc[step.t].loc)
  {
  }

  /** Settled slots stay settled, and no new slot is occupied or pinned. */
  lemma SamePlaced(s: State, s': State, t: nat)
    requires Placed(s) && OnlyMoves(s, s', t) && t < |s.pc|
    requires forall l :: Settled(s, l) ==> Settled(s', l)
    requires forall z, k :: M.Occupied(s'.cmap, Loc(z, k)) ==> M.Occupied(s.cmap, Loc(z, k))
    requires s'.pc[t].Pins() ==> s.pc[t].Pins() && s'.pc[t].loc == s.pc[t].loc
    ensures Placed(s')
  {
    assert forall u :: 0 <= u < |s.pc| && u != t && s'.pc[u].Pins() ==> s'.pc[u] == s.pc[u];
  }

  lemma FindPlaced(c: Config, s: State, step: Step)
    requires Reached(s, step) && Asserted(s, step) && Placed(s) && step.Find?
    ensures Placed(Apply(c, s, step))
  {
    var t, s', f := step.t, Apply(c, s, step), M.Find(s.cmap, step.id).1;
    OneThreadMoves(c, s, step);
    assert forall u :: 0 <= u < |s.pc| && u != t && s'.pc[u].Pins() ==> s'.pc[u] == s.pc[u];
    if f.Hit? {
      assert M.Occupied(s.cmap, Loc(f.loc.zone, f.loc.chunk));
    }
  }

  lemma ZonePlaced(c: Config, s: State, step: Step)
    requires Reached(s, step) && Asserted(s, step) && Placed(s)
    requires step.GetSlot? || step.ReturnZone? || step.UndoZone?
    ensures Placed(Apply(c, s, step))
  {
    OneThreadMoves(c, s, step);
    if step.GetSlot? {
      GetSlotEffect(c, s, step);
    } else {
      LandEffect(c, s, step);
    }
    SamePlaced(s, Apply(c, s, step), step.t);
  }

  lemma InsertPlaced(c: Config, s: State, step: Step)
    requires Reached(s, step) && Asserted(s, step) && Placed(s) && Slots(s) && step.Insert?
    ensures Placed(Apply(c, s, step))
  {
    var t, s' := step.t, Apply(c, s, step);
    OneThreadMoves(c, s, step);
    assert SlotAt(s, s.pc[t]);
    assert forall u :: 0 <= u < |s.pc| && s'.pc[u].Pins() ==> s'.pc[u] == s.pc[u];
    forall z, k | M.Occupied(s'.cmap, Loc(z, k)) ensures Settled(s', Loc(z, k)) {
      assert Loc(z, k) == s.pc[t].loc || M.Occupied(s.cmap, Loc(z, k));
    }
  }

  lemma ResetPlaced(c: Config, s: State, step: Step)
    requires Reached(s, step) && Asserted(s, step) && Placed(s) && Clearing(s) && step.Reset?
    ensures Placed(Apply(c, s, step))
  {
    var t, s', v := step.t, Apply(c, s, step), s.pc[step.t].victim;
    assert s.cmap.inverse[v] == map[];
    forall l: Loc | l.zone != v && Settled(s, l) ensures Settled(s', l) {
    }
    forall u | 0 <= u < |s.pc| && s'.pc[u].Pins() ensures Settled(s', s'.pc[u].loc) {
      assert s'.pc[u] == s.pc[u] && !s.pc[u].PinsZone(v);
    }
  }

  lemma KeepsPlaced(c: Config, s: State, step: Step)
    requires Reached(s, step) && Asserted(s, step) && Placed(s) && Slots(s) && Clearing(s)
    ensures Placed(Apply(c, s, step))
  {
    if step.Find? {
      FindPlaced(c, s, step);
    } else if step.GetSlot? || step.ReturnZone? || step.UndoZone? {
      ZonePlaced(c, s, step);
    } else if step.Insert? {
      InsertPlaced(c, s, step);
    } else if step.Reset? {
      ResetPlaced(c, s, step);
    } else {
      OneThreadMoves(c, s, step);
      if !step.ClearZone? {
        QuietForPlaced(c, s, step);
      }
      SamePlaced(s, Apply(c, s, step), step.t);
    }
  }

  // ---------- reader counts ----------

  lemma QuietForPins(c: Config, s: State, step: Step)
    requires Reached(s, step) && Asserted(s, step)
    requires !step.Find? && !step.Unpin?
    ensures var s' := Apply(c, s, step);
      && s'.cmap.readers == s.cmap.readers
      && forall z :: s'.pc[step.t].PinsZone(z) == s.pc[step.t].PinsZone(z)
  {
  }

  /** The count of a zone moves with the one thread that moves. */
  lemma PinsMove(s: State, s': State, t: nat, z: nat)
    requires OnlyMoves(s, s', t) && t < |s.pc|
    ensures PinCount(s', z) == PinCount(s, z)
         - (if s.pc[t].PinsZone(z) then 1 else 0) + (if s'.pc[t].PinsZone(z) then 1 else 0)
  {
    var moved := s.pc[t := s'.pc[t]];
    CountUpdate(s.pc, t, s'.pc[t], Pinner(z));
    CountAgree(moved, s'.pc, Pinner(z));
  }

  lemma KeepsPins(c: Config, s: State, step: Step)
    requires Reached(s, step) && Asserted(s, step) && Pins(s) && |s.cmap.readers| == |s.cmap.inverse|
    ensures Pins(Apply(c, s, step))
  {
    var t, s' := step.t, Apply(c, s, step);
    OneThreadMoves(c, s, step);
    if !step.Find? && !step.Unpin? {
      QuietForPins(c, s, step);
    }
    forall z | 0 <= z < |s'.cmap.readers| ensures s'.cmap.readers[z] == PinCount(s', z) {
      PinsMove(s, s', t, z);
    }
  }

  // ---------- cleared zones ----------

  lemma QuietForClearing(c: Config, s: State, step: Step)
    requires Reached(s, step) && Asserted(s, step)
    requires !step.Find? && !step.GetSlot? && !step.Insert? && !step.ClearZone? && !step.Drain?
    ensures var s' := Apply(c, s, step);
      && s'.cmap.inverse == s.cmap.inverse
      && (s'.pc[step.t].Slot().Some? ==> s'.pc[step.t].Slot() == s.pc[step.t].Slot())
      && (forall z :: s'.pc[step.t].PinsZone(z) ==> s.pc[step.t].PinsZone(z))
      && !s'.pc[step.t].Cleared? && !s'.pc[step.t].Drained?
  {
  }

  /** Nothing new appears in any cleared zone. */
  lemma SameClearing(s: State, s': State, t: nat)
    requires Clearing(s) && OnlyMoves(s, s', t) && t < |s.pc|
    requires |s'.cmap.inverse| == |s.cmap.inverse|
    requires forall u, z ::
      0 <= u < |s.pc| && s.pc[u].Victim() == Some(z) && z < |s.cmap.inverse| && !s.pc[u].Popped? ==>
      && (s.cmap.inverse[z] == map[] ==> s'.cmap.inverse[z] == map[])
      && (s'.pc[t].Slot().Some? && s'.pc[t].Slot() != s.pc[t].Slot() ==> s'.pc[t].loc.zone != z)
      && (s'.pc[t].PinsZone(z) ==> s.pc[t].PinsZone(z))
    requires !s'.pc[t].Cleared? && !s'.pc[t].Drained?
    ensures Clearing(s')
  {
    forall u | 0 <= u < |s'.pc| && (s'.pc[u].Cleared? || s'.pc[u].Drained?)
      ensures s'.pc[u] == s.pc[u] && s.pc[u].Victim() == Some(s'.pc[u].victim)
      ensures Published(s', s'.pc[u].victim)
    {
      var v := s'.pc[u].victim;
      assert Published(s, v);
      forall w | 0 <= w < |s'.pc| && s'.pc[w].Slot().Some? ensures s'.pc[w].Slot().value.zone != v {
        assert w != t ==> s'.pc[w] == s.pc[w];
      }
    }
  }

  lemma FindClearing(c: Config, s: State, step: Step)
    requires Reached(s, step) && Asserted(s, step) && Clearing(s) && step.Find?
    ensures Clearing(Apply(c, s, step))
  {
    OneThreadMoves(c, s, step);
    SameClearing(s, Apply(c, s, step), step.t);
  }

  lemma GetSlotClearing(c: Config, s: State, step: Step)
    requires Reached(s, step) && Asserted(s, step) && Clearing(s) && Lists(c, s) && step.GetSlot?
    ensures Clearing(Apply(c, s, step))
  {
    OneThreadMoves(c, s, step);
    GetSlotEffect(c, s, step);
    forall u, z | 0 <= u < |s.pc| && s.pc[u].Victim() == Some(z) ensures IsFull(s, z) {
      assert Keeper(c.maxChunks, z)(s.pc[u]);
      PlacedIsFull(c, s, z);
    }
    SameClearing(s, Apply(c, s, step), step.t);
  }

  lemma InsertClearing(c: Config, s: State, step: Step)
    requires Reached(s, step) && Asserted(s, step) && Clearing(s) && step.Insert?
    ensures Clearing(Apply(c, s, step))
  {
    OneThreadMoves(c, s, step);
    forall u, z | 0 <= u < |s.pc| && s.pc[u].Victim() == Some(z) && !s.pc[u].Popped?
      ensures s.pc[step.t].loc.zone != z
    {
      assert Published(s, z);
    }
    SameClearing(s, Apply(c, s, step), step.t);
  }

  lemma ClearClearing(c: Config, s: State, step: Step)
    requires Reached(s, step) && Asserted(s, step) && Clearing(s) && step.ClearZone?
    requires Published(s, s.pc[step.t].victim)
    ensures Clearing(Apply(c, s, step))
  {
    var t, s' := step.t, Apply(c, s, step);
    assert forall u :: 0 <= u < |s.pc| ==> s'.pc[u].Slot() == s.pc[u].Slot();
    assert forall u, z :: 0 <= u < |s.pc| ==> s'.pc[u].PinsZone(z) == s.pc[u].PinsZone(z);
    assert forall z :: Published(s', z) <==> Published(s, z);
  }

  lemma DrainClearing(c: Config, s: State, step: Step)
    requires Reached(s, step) && Asserted(s, step) && Clearing(s) && Pins(s) && step.Drain?
    ensures Clearing(Apply(c, s, step))
  {
    var t, s', v := step.t, Apply(c, s, step), s.pc[step.t].victim;
    CountZero(s.pc, Pinner(v));
    assert forall u :: 0 <= u < |s.pc| ==> !Pinner(v)(s.pc[u]);
    assert forall u :: 0 <= u < |s.pc| ==> s'.pc[u].Slot() == s.pc[u].Slot();
    assert forall u, z :: 0 <= u < |s.pc| ==> s'.pc[u].PinsZone(z) == s.pc[u].PinsZone(z);
    assert forall z :: Published(s', z) <==> Published(s, z);
  }

  lemma KeepsClearing(c: Config, s: State, step: Step)
    requires Reached(s, step) && Asserted(s, step) && Clearing(s) && Lists(c, s) && Pins(s)
    requires step.ClearZone? ==> Published(s, s.pc[step.t].victim)
    ensures Clearing(Apply(c, s, step))
  {
    if step.Find? {
      FindClearing(c, s, step);
    } else if step.GetSlot? {
      GetSlotClearing(c, s, step);
    } else if step.Insert? {
      InsertClearing(c, s, step);
    } else if step.ClearZone? {
      ClearClearing(c, s, step);
    } else if step.Drain? {
      DrainClearing(c, s, step);
    } else {
      OneThreadMoves(c, s, step);
      QuietForClearing(c, s, step);
      SameClearing(s, Apply(c, s, step), step.t);
    }
  }

  // ---------- data on disk and in buffers ----------

  /** Steps that neither touch the disk nor map an id. */
  lemma QuietForDisk(c: Config, s: State, step: Step)
    requires Reached(s, step) && Asserted(s, step)
    requires !step.Find? && !step.Scribble? && !step.WriteOk? && !step.Insert? && !step.Read? && !step.Reset?
    ensures var s' := Apply(c, s, step);
      && s'.disk == s.disk
      && forall id :: id in s'.cmap.entry && s'.cmap.entry[id].At? ==>
           id in s.cmap.entry && s'.cmap.entry[id] == s.cmap.entry[id]
  {
  }

  /** Nor do they change what their thread claims about a slot or a buffer. */
  lemma QuietForBuffers(c: Config, s: State, step: Step)
    requires Reached(s, step) && Asserted(s, step)
    requires !step.Find? && !step.Scribble? && !step.WriteOk? && !step.Insert? && !step.Read? && !step.Reset?
    requires DataAt(c, s, s.pc[step.t])
    ensures DataAt(c, s, Apply(c, s, step).pc[step.t])
  {
  }

  /** Data stays right when the only slots rewritten are ones nobody reads from. */
  lemma SameData(c: Config, s: State, s': State, t: nat)
    requires Data(c, s) && OnlyMoves(s, s', t) && t < |s.pc|
    requires forall id :: id in s'.cmap.entry && s'.cmap.entry[id].At? ==>
      && id in s.cmap.entry && s'.cmap.entry[id] == s.cmap.entry[id]
      && Content(s'.disk, s'.cmap.entry[id].loc) == Content(s.disk, s'.cmap.entry[id].loc)
    requires forall u :: 0 <= u < |s.pc| && u != t && (s.pc[u].Pins() || s.pc[u].Slot().Some?) ==>
      Content(s'.disk, s.pc[u].loc) == Content(s.disk, s.pc[u].loc)
    requires DataAt(c, s', s'.pc[t])
    ensures Data(c, s')
  {
    forall u | 0 <= u < |s'.pc| ensures DataAt(c, s', s'.pc[u]) {
      assert DataAt(c, s, s.pc[u]);
    }
  }

  lemma FindData(c: Config, s: State, step: Step)
    requires Reached(s, step) && Asserted(s, step) && Data(c, s) && step.Find?
    ensures Data(c, Apply(c, s, step))
  {
    OneThreadMoves(c, s, step);
    SameData(c, s, Apply(c, s, step), step.t);
  }

  lemma WriteData(c: Config, s: State, step: Step)
    requires Reached(s, step) && Asserted(s, step) && Data(c, s) && Slots(s) && Placed(s) && M.TwoWay(s.cmap)
    requires step.Scribble? || step.WriteOk?
    ensures Data(c, Apply(c, s, step))
  {
    var t, s', l := step.t, Apply(c, s, step), s.pc[step.t].loc;
    OneThreadMoves(c, s, step);
    assert SlotAt(s, s.pc[t]);
    assert forall u :: 0 <= u < |s.pc| && u != t && s.pc[u].Slot().Some? ==> s.pc[u].Slot() != s.pc[t].Slot();
    assert forall k: Loc :: k != l ==> Content(s'.disk, k) == Content(s.disk, k);
    SameData(c, s, s', t);
  }

  lemma InsertData(c: Config, s: State, step: Step)
    requires Reached(s, step) && Asserted(s, step) && Data(c, s) && step.Insert?
    ensures Data(c, Apply(c, s, step))
  {
    var t, s' := step.t, Apply(c, s, step);
    assert DataAt(c, s, s.pc[t]);
    forall u | 0 <= u < |s'.pc| ensures DataAt(c, s', s'.pc[u]) {
      assert DataAt(c, s, s.pc[u]);
    }
  }

  lemma ReadData(c: Config, s: State, step: Step)
    requires Reached(s, step) && Asserted(s, step) && Data(c, s) && step.Read?
    ensures Data(c, Apply(c, s, step))
  {
    OneThreadMoves(c, s, step);
    assert DataAt(c, s, s.pc[step.t]);
    SameData(c, s, Apply(c, s, step), step.t);
  }

  lemma ResetData(c: Config, s: State, step: Step)
    requires Reached(s, step) && Asserted(s, step) && Data(c, s) && Clearing(s) && M.TwoWay(s.cmap) && step.Reset?
    ensures Data(c, Apply(c, s, step))
  {
    var t, s', v := step.t, Apply(c, s, step), s.pc[step.t].victim;
    OneThreadMoves(c, s, step);
    assert Published(s, v) && s.cmap.inverse[v] == map[];
    assert forall k: Loc :: k.zone != v ==> Content(s'.disk, k) == Content(s.disk, k);
    forall u | 0 <= u < |s.pc| && (s.pc[u].Pins() || s.pc[u].Slot().Some?) ensures s.pc[u].loc.zone != v {
      assert !s.pc[u].PinsZone(v);
    }
    SameData(c, s, s', t);
  }

  lemma KeepsData(c: Config, s: State, step: Step)
    requires Reached(s, step) && Asserted(s, step)
    requires Data(c, s) && Slots(s) && Placed(s) && Clearing(s) && M.TwoWay(s.cmap)
    ensures Data(c, Apply(c, s, step))
  {
    if step.Find? {
      FindData(c, s, step);
    } else if step.Scribble? || step.WriteOk? {
      WriteData(c, s, step);
    } else if step.Insert? {
      InsertData(c, s, step);
    } else if step.Read? {
      ReadData(c, s, step);
    } else if step.Reset? {
      ResetData(c, s, step);
    } else {
      OneThreadMoves(c, s, step);
      QuietForDisk(c, s, step);
      QuietForBuffers(c, s, step);
      SameData(c, s, Apply(c, s, step), step.t);
    }
  }

  // ---------- the FULL zones ----------

  lemma PlacesMove(c: Config, s: State, s': State, t: nat, z: nat)
    requires OnlyMoves(s, s', t) && t < |s.pc|
    ensures Places(c, s', z) - multiset(s'.lru)[z] == Places(c, s, z) - multiset(s.lru)[z]
         - (if Keeper(c.maxChunks, z)(s.pc[t]) then 1 else 0) + (if Keeper(c.maxChunks, z)(s'.pc[t]) then 1 else 0)
  {
    var moved := s.pc[t := s'.pc[t]];
    CountUpdate(s.pc, t, s'.pc[t], Keeper(c.maxChunks, z));
    CountAgree(moved, s'.pc, Keeper(c.maxChunks, z));
  }

  ghost function One(b: bool): nat {
    if b then 1 else 0
  }

  /** Zone `z` moves on or off the list, in or out of `t`'s charge and in or out of FULL all together. */
  ghost predicate Balanced(c: Config, s: State, s': State, t: nat, z: nat)
    requires t < |s.pc| && t < |s'.pc|
  {
    multiset(s'.lru)[z] + One(Keeper(c.maxChunks, z)(s'.pc[t])) + One(IsFull(s, z))
      == multiset(s.lru)[z] + One(Keeper(c.maxChunks, z)(s.pc[t])) + One(IsFull(s', z))
  }

  lemma GrantBalance(c: Config, s: State, step: Step, z: nat)
    requires Reached(s, step) && Asserted(s, step) && step.GetSlot?
    ensures Balanced(c, s, Apply(c, s, step), step.t, z)
  {
    GetSlotEffect(c, s, step);
  }

  lemma LandBalance(c: Config, s: State, step: Step, z: nat)
    requires Reached(s, step) && Asserted(s, step) && s.zsm.maxChunks == c.maxChunks
    requires step.ReturnZone? || step.UndoZone?
    ensures Balanced(c, s, Apply(c, s, step), step.t, z)
  {
    LandEffect(c, s, step);
  }

  lemma ResetBalance(c: Config, s: State, step: Step, z: nat)
    requires Reached(s, step) && Asserted(s, step) && step.Reset?
    ensures Balanced(c, s, Apply(c, s, step), step.t, z)
  {
  }

  lemma PushCount(q: seq<nat>, x: nat, z: nat)
    ensures multiset(q + [x])[z] == multiset(q)[z] + One(x == z)
  {
  }

  lemma PopCount(q: seq<nat>, z: nat)
    requires q != []
    ensures multiset(q)[z] == multiset(q[1..])[z] + One(q[0] == z)
  {
    assert q == [q[0]] + q[1..];
  }

  lemma PushBalance(c: Config, s: State, step: Step, z: nat)
    requires Reached(s, step) && Asserted(s, step) && step.PolicyWrite?
    ensures Balanced(c, s, Apply(c, s, step), step.t, z)
  {
    PushCount(s.lru, s.pc[step.t].loc.zone, z);
  }

  lemma ListBalance(c: Config, s: State, step: Step, z: nat)
    requires Reached(s, step) && Asserted(s, step)
    requires step.PolicyRead? || step.EvictPop?
    ensures Balanced(c, s, Apply(c, s, step), step.t, z)
  {
    if step.PolicyRead? {
      TouchMultiset(s.lru, s.pc[step.t].loc.zone);
    } else {
      PopCount(s.lru, z);
    }
  }

  lemma StepBalance(c: Config, s: State, step: Step, z: nat)
    requires Reached(s, step) && Asserted(s, step) && s.zsm.maxChunks == c.maxChunks
    ensures Balanced(c, s, Apply(c, s, step), step.t, z)
  {
    if step.GetSlot? {
      GrantBalance(c, s, step, z);
    } else if step.ReturnZone? || step.UndoZone? {
      LandBalance(c, s, step, z);
    } else if step.Reset? {
      ResetBalance(c, s, step, z);
    } else if step.PolicyWrite? {
      PushBalance(c, s, step, z);
    } else if step.PolicyRead? || step.EvictPop? {
      ListBalance(c, s, step, z);
    } else {
      QuietForLists(c, s, step);
    }
  }

  lemma QuietForLists(c: Config, s: State, step: Step)
    requires Reached(s, step) && Asserted(s, step)
    requires !step.GetSlot? && !step.ReturnZone? && !step.UndoZone? && !step.Reset?
    requires !step.PolicyWrite? && !step.PolicyRead? && !step.EvictPop?
    ensures var s' := Apply(c, s, step);
      && s'.zsm == s.zsm && s'.lru == s.lru
      && s'.pc[step.t].Victim() == s.pc[step.t].Victim()
      && s'.pc[step.t].Unlisted(c.maxChunks) == s.pc[step.t].Unlisted(c.maxChunks)
  {
  }

  lemma KeepsLists(c: Config, s: State, step: Step)
    requires Reached(s, step) && Asserted(s, step) && Lists(c, s) && s.zsm.maxChunks == c.maxChunks
    ensures Lists(c, Apply(c, s, step))
  {
    var s' := Apply(c, s, step);
    OneThreadMoves(c, s, step);
    forall z: nat ensures Places(c, s', z) == if IsFull(s', z) then 1 else 0 {
      PlacesMove(c, s, s', step.t, z);
      StepBalance(c, s, step, z);
    }
  }

  /** A listed zone, and a zone in some thread's charge, is FULL. */
  lemma PlacedIsFull(c: Config, s: State, z: nat)
    requires Lists(c, s)
    requires z in s.lru || exists t :: 0 <= t < |s.pc| && Keeper(c.maxChunks, z)(s.pc[t])
    ensures IsFull(s, z)
  {
    CountZero(s.pc, Keeper(c.maxChunks, z));
  }

  // ---------- whole runs ----------

  /** Every assertion the code makes, and every array access it relies on, holds where it is reached. */
  lemma AssertionsHold(c: Config, s: State, step: Step)
    requires Inv(c, s) && Reached(s, step)
    ensures Asserted(s, step)
  {
    var pc := s.pc[step.t];
    if pc.Victim().Some? {
      VictimIsFull(c, s, step.t);
    } else if pc.Owns().Some? {
      assert M.IsCond(s.cmap, pc.Owns().value);
      assert SlotAt(s, pc);
    }
  }

  lemma VictimIsFull(c: Config, s: State, t: nat)
    requires Lists(c, s) && t < |s.pc| && s.pc[t].Victim().Some?
    ensures IsFull(s, s.pc[t].victim)
  {
    assert Keeper(c.maxChunks, s.pc[t].victim)(s.pc[t]);
    PlacedIsFull(c, s, s.pc[t].victim);
  }

  lemma InsertIsFree(c: Config, s: State, step: Step)
    requires Slots(s) && Reached(s, step) && step.Insert?
    ensures !M.Occupied(s.cmap, s.pc[step.t].loc)
  {
    assert SlotAt(s, s.pc[step.t]);
  }

  lemma NextKeepsInv(c: Config, s: State, step: Step, s': State)
    requires Inv(c, s) && Next(c, s, step, s')
    ensures Inv(c, s')
  {
    if step.Insert? {
      InsertIsFree(c, s, step);
    }
    KeepsShape(c, s, step);
    KeepsOwners(c, s, step);
    KeepsSlots(c, s, step);
    KeepsPlaced(c, s, step);
    KeepsPins(c, s, step);
    KeepsData(c, s, step);
    KeepsLists(c, s, step);
    KeepsClearing(c, s, step);
  }

  lemma {:induction false} RunInv(c: Config, states: seq<State>, steps: seq<Step>, i: nat)
    requires Run(c, states, steps) && i <= |steps|
    ensures Inv(c, states[i])
  {
    if i == 0 {
      InitInv(c, states[0]);
    } else {
      RunInv(c, states, steps, i - 1);
      NextKeepsInv(c, states[i - 1], steps[i - 1], states[i]);
    }
  }
}
