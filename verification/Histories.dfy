/** The zone manager inside a concurrent run is used as a run of the manager alone. */
module SlotRuns {
  import opened Types
  import opened Moments
  import opened Machine
  import opened Invariants
  import D = SlotDiscipline
  import Z = ZoneSpec

  /** What a step asks of the manager. */
  ghost function OpOf(s: State, step: Step): Option<D.Op>
    requires Reached(s, step)
  {
    match step
    case GetSlot(_) => Some(D.Get)
    case ReturnZone(t) => Some(D.Ret(s.pc[t].loc))
    case UndoZone(t) => Some(D.Bad(s.pc[t].loc))
    case Reset(t, _) => Some(D.Rst(s.pc[t].victim))
    case _ => None
  }

  /** What step `i` of a run asks of the manager, if anything. */
  ghost function OpAt(states: seq<State>, steps: seq<Step>): nat -> Option<D.Op> {
    (i: nat) => if i < |steps| && i < |states| && Reached(states[i], steps[i]) then OpOf(states[i], steps[i]) else None
  }

  ghost function ZonesAt(states: seq<State>): nat -> Z.Zones
    requires states != []
  {
    (i: nat) => if i < |states| then states[i].zsm else states[0].zsm
  }

  /** The operations on the manager in the first `i` steps of a run. */
  ghost function ZoneOps(states: seq<State>, steps: seq<Step>, i: nat): seq<D.Op> {
    OpsOf(OpAt(states, steps), i)
  }

  /** The manager's states around them. */
  ghost function ZoneStates(states: seq<State>, steps: seq<Step>, i: nat): seq<Z.Zones>
    requires states != []
  {
    StatesOf(OpAt(states, steps), ZonesAt(states), i)
  }

  lemma StepIsOp(c: Config, s: State, step: Step)
    requires Reached(s, step) && Asserted(s, step) && Z.Inv(s.zsm)
    ensures match OpOf(s, step)
      case Some(op) => D.Step(s.zsm, op, Apply(c, s, step).zsm)
      case None => Apply(c, s, step).zsm == s.zsm
  {
  }

  ghost predicate ZoneMoves(s: State, step: Step, s': State) {
    && Reached(s, step)
    && match OpOf(s, step)
       case Some(op) => D.Step(s.zsm, op, s'.zsm)
       case None => s'.zsm == s.zsm
  }

  lemma RunMoves(c: Config, states: seq<State>, steps: seq<Step>, i: nat)
    requires Run(c, states, steps) && i < |steps|
    ensures ZoneMoves(states[i], steps[i], states[i + 1])
  {
    RunInv(c, states, steps, i);
    assert Next(c, states[i], steps[i], states[i + 1]);
    StepIsOp(c, states[i], steps[i]);
  }

  ghost function ManagerStep(): (Z.Zones, D.Op, Z.Zones) -> bool {
    (s: Z.Zones, op: D.Op, s': Z.Zones) => D.Step(s, op, s')
  }

  lemma RunStutters(c: Config, states: seq<State>, steps: seq<Step>)
    requires Run(c, states, steps)
    ensures Stutters(ManagerStep(), OpAt(states, steps), ZonesAt(states), |steps|)
  {
    forall i: nat | i < |steps|
      ensures if OpAt(states, steps)(i).Some?
              then ManagerStep()(ZonesAt(states)(i), OpAt(states, steps)(i).value, ZonesAt(states)(i + 1))
              else ZonesAt(states)(i + 1) == ZonesAt(states)(i)
    {
      RunMoves(c, states, steps, i);
    }
  }

  lemma ChainIsRun(n: nat, zs: seq<Z.Zones>, ops: seq<D.Op>)
    requires Chained(ManagerStep(), zs, ops)
    requires 1 <= zs[0].maxActive && 1 <= zs[0].maxChunks && zs[0] == Z.Initial(n, zs[0].maxActive, zs[0].maxChunks)
    ensures D.Run(n, zs, ops)
  {
    forall i | 0 <= i < |ops| ensures D.Step(zs[i], ops[i], zs[i + 1]) {
      assert ManagerStep()(zs[i], ops[i], zs[i + 1]);
    }
  }

  /**
   * The steps of any concurrent run that use the manager make a run of the manager, so all
   * that is proved of those, from the partition to the turns, holds here.
   */
  lemma IsManagerRun(c: Config, states: seq<State>, steps: seq<Step>, i: nat)
    requires Run(c, states, steps) && i <= |steps|
    ensures D.Run(c.numZones, ZoneStates(states, steps, i), ZoneOps(states, steps, i))
    ensures ZoneStates(states, steps, i)[|ZoneOps(states, steps, i)|] == states[i].zsm
  {
    RunStutters(c, states, steps);
    WithoutStutter(ManagerStep(), OpAt(states, steps), ZonesAt(states), |steps|, i);
    ChainIsRun(c.numZones, ZoneStates(states, steps, i), ZoneOps(states, steps, i));
  }

  /** In every interleaving zones are granted in turn, and the chunks of a zone are returned in order. */
  lemma ConcurrentTurns(c: Config, states: seq<State>, steps: seq<Step>, i: nat, z: nat)
    requires Run(c, states, steps) && i <= |steps|
    ensures Z.Inv(states[i].zsm) && D.TurnKept(c.numZones, states[i].zsm, ZoneOps(states, steps, i))
    ensures |states[i].zsm.zone| == c.numZones
    ensures z < c.numZones ==> D.Returned(ZoneOps(states, steps, i), z) == D.UpTo(Z.Filled(states[i].zsm, z))
  {
    var zs, ops := ZoneStates(states, steps, i), ZoneOps(states, steps, i);
    IsManagerRun(c, states, steps, i);
    RunInv(c, states, steps, i);
    D.GrantedInTurn(c.numZones, zs, ops, |ops|);
    if z < c.numZones {
      D.ReturnedInOrder(c.numZones, zs, ops, |ops|, z);
    }
    assert ops[..|ops|] == ops;
  }

  /**
   * What a request gets in any interleaving: a slot whenever there is an active zone, or a
   * free one within the limit on writes; of the zone whose turn it is; and of that zone the
   * chunk after those returned since its last reset. It goes to evict exactly when every
   * zone is FULL, and otherwise asks again.
   */
  lemma ConcurrentGrant(c: Config, states: seq<State>, steps: seq<Step>, i: nat)
    requires Run(c, states, steps) && i < |steps| && steps[i].GetSlot?
    ensures steps[i].t < |states[i].pc| == |states[i + 1].pc|
    ensures var zs, ops, pc := states[i].zsm, ZoneOps(states, steps, i), states[i + 1].pc[steps[i].t];
      && (pc.Writing? <==> Z.AnyIn(zs, Z.Active) || (zs.writes < zs.maxActive && Z.AnyIn(zs, Z.Free)))
      && (pc.Writing? ==>
            && pc.loc.chunk == |D.Returned(ops, pc.loc.zone)|
            && if Z.AnyIn(zs, Z.Active) then D.Earliest(zs, Z.Active, pc.loc.zone, D.ByGivenBack(ops))
               else D.Earliest(zs, Z.Free, pc.loc.zone, D.ByFreeSince(c.numZones, ops)))
      && (pc.EvictEntry? <==> forall z :: 0 <= z < |zs.zone| ==> zs.zone[z].cond == Z.Full)
      && (pc.Writing? || pc.EvictEntry? || pc == states[i].pc[steps[i].t])
  {
    RunInv(c, states, steps, i);
    assert Next(c, states[i], steps[i], states[i + 1]);
    ConcurrentTurns(c, states, steps, i, 0);
    Z.GetActiveKeepsInv(states[i].zsm);
    Z.RefusalMeaning(states[i].zsm);
    var g := Z.GetActive(states[i].zsm).1;
    if g.Granted? {
      ConcurrentTurns(c, states, steps, i, g.loc.zone);
    }
  }
}

/** In every concurrent run the map says of each id just what the run's history says. */
module MapRuns {
  import opened Types
  import opened Machine
  import opened Invariants
  import M = MapSpec

  /** Where `id` was last published, if its zone has not been cleared since. */
  ghost function Place(states: seq<State>, steps: seq<Step>, i: nat, id: Id): Option<Loc>
    requires i <= |steps| <= |states|
  {
    if i == 0 then None
    else PlaceStep(states[i - 1], steps[i - 1], Place(states, steps, i - 1, id), id)
  }

  ghost function PlaceStep(s: State, step: Step, before: Option<Loc>, id: Id): Option<Loc> {
    if !Reached(s, step) then before
    else if step.Insert? && s.pc[step.t].id == id then Some(s.pc[step.t].loc)
    else if step.ClearZone? && before.Some? && before.value.zone == s.pc[step.t].victim then None
    else before
  }

  lemma PublishMaps(m: M.MapState, who: Id, at: Loc, id: Id, l: Loc)
    requires at.zone < |m.inverse|
    ensures M.Maps(M.Insert(m, who, at), id, l) <==> if id == who then l == at else M.Maps(m, id, l)
  {
  }

  lemma QuietForMap(c: Config, s: State, step: Step)
    requires Reached(s, step) && Asserted(s, step)
    requires !step.Find? && !step.Insert? && !step.UndoMap? && !step.ClearZone?
    ensures Apply(c, s, step).cmap.entry == s.cmap.entry
  {
  }

  lemma MapStep(c: Config, s: State, step: Step, id: Id, l: Loc)
    requires Reached(s, step) && Asserted(s, step) && M.TwoWay(s.cmap)
    ensures M.Maps(Apply(c, s, step).cmap, id, l) <==>
            if step.Insert? && s.pc[step.t].id == id then l == s.pc[step.t].loc
            else M.Maps(s.cmap, id, l) && !(step.ClearZone? && l.zone == s.pc[step.t].victim)
  {
    var pc := s.pc[step.t];
    if step.Find? {
      M.FindKeeps(s.cmap, step.id);
    } else if step.Insert? {
      PublishMaps(s.cmap, pc.id, pc.loc, id, l);
    } else if step.ClearZone? {
      M.ClearZoneKeeps(s.cmap, pc.victim);
    } else if !step.UndoMap? {
      QuietForMap(c, s, step);
    }
  }

  /**
   * An id is mapped to a slot exactly when that is where it was last published and its zone
   * has not been cleared since: nothing else forgets it, and nothing else moves it.
   */
  lemma {:induction false} MapIsHistory(c: Config, states: seq<State>, steps: seq<Step>, i: nat, id: Id)
    requires Run(c, states, steps) && i <= |steps|
    ensures forall l :: M.Maps(states[i].cmap, id, l) <==> Place(states, steps, i, id) == Some(l)
  {
    if i > 0 {
      MapIsHistory(c, states, steps, i - 1, id);
      RunInv(c, states, steps, i - 1);
      assert Next(c, states[i - 1], steps[i - 1], states[i - 1 + 1]);
      forall l ensures M.Maps(states[i].cmap, id, l) <==> Place(states, steps, i, id) == Some(l) {
        MapStep(c, states[i - 1], steps[i - 1], id, l);
      }
    }
  }

  lemma FindOutcome(c: Config, s: State, step: Step)
    requires Reached(s, step) && Asserted(s, step) && step.Find?
    ensures var pc := Apply(c, s, step).pc[step.t];
      && (forall l :: pc == Pinned(step.id, l) <==> M.Maps(s.cmap, step.id, l))
      && (pc == Waiting(step.id) <==> M.IsCond(s.cmap, step.id))
      && (pc == Seeking(step.id) <==> !M.Cached(s.cmap, step.id) && !M.IsCond(s.cmap, step.id))
  {
  }

  /**
   * A lookup hits exactly where the history says the id is; otherwise it waits while some
   * thread owns the id's write, and takes that over if none does.
   */
  lemma LookupIsHistory(c: Config, states: seq<State>, steps: seq<Step>, i: nat)
    requires Run(c, states, steps) && i < |steps| && steps[i].Find?
    ensures steps[i].t < |states[i + 1].pc|
    ensures var id, pc := steps[i].id, states[i + 1].pc[steps[i].t];
      && (forall l :: pc == Pinned(id, l) <==> Place(states, steps, i, id) == Some(l))
      && (pc == Waiting(id) <==> exists u :: 0 <= u < |states[i].pc| && states[i].pc[u].Owns() == Some(id))
      && (pc.Pinned? || pc == Waiting(id) || pc == Seeking(id))
  {
    MapIsHistory(c, states, steps, i, steps[i].id);
    RunInv(c, states, steps, i);
    assert Next(c, states[i], steps[i], states[i + 1]);
    FindOutcome(c, states[i], steps[i]);
    assert Owners(states[i]);
  }
}

/** What a thread's own history says about where it is. */
module ThreadRuns {
  import opened Types
  import opened Moments
  import opened Machine
  import opened Invariants
  import Concurrency
  import Z = ZoneSpec

  predicate IsTransfer(step: Step) {
    step.Read? || step.WriteOk? || step.WriteErr?
  }

  /** The last transfer of thread `t` in the first `i` steps, if it has looked up nothing since. */
  ghost function LastTransfer(steps: seq<Step>, i: nat, t: nat): Option<nat>
    requires i <= |steps|
  {
    if i == 0 then None
    else if steps[i - 1].t == t && steps[i - 1].Find? then None
    else if steps[i - 1].t == t && IsTransfer(steps[i - 1]) then Some(i - 1)
    else LastTransfer(steps, i - 1, t)
  }

  /** What the transfer `step` of the id `id` leaves the thread with at `pc`. */
  predicate Follows(step: Step, id: Id, pc: PC) {
    && (pc.Written? || pc.Returned? || pc.Publishing? ==> step.WriteOk? && pc.id == id)
    && (pc.WriteFailed? || pc.Undoing? ==> step.WriteErr? && pc.id == id)
    && (pc.Fetched? || pc.Leaving? ==> step.Read? && pc.id == id && (pc.data.Some? <==> step.ok))
    && (pc.Done? ==> pc.id == id && (pc.data.Some? <==> step.WriteOk? || (step.Read? && step.ok)))
  }

  /** The thread has made its transfer and not begun anew. */
  predicate Past(pc: PC) {
    || pc.Written? || pc.Returned? || pc.Publishing? || pc.WriteFailed? || pc.Undoing?
    || pc.Fetched? || pc.Leaving? || pc.Done?
  }

  /** Thread `t` made a transfer at step `k`. */
  predicate Made(states: seq<State>, steps: seq<Step>, k: nat, t: nat) {
    k < |steps| && k < |states| && steps[k].t == t && IsTransfer(steps[k]) && Reached(states[k], steps[k])
  }

  ghost predicate Trail(states: seq<State>, steps: seq<Step>, i: nat, t: nat)
    requires i <= |steps| < |states| && t < |states[i].pc|
  {
    Past(states[i].pc[t]) ==>
      var k := LastTransfer(steps, i, t);
      && k.Some? && k.value < i && Made(states, steps, k.value, t)
      && Follows(steps[k.value], states[k.value].pc[t].id, states[i].pc[t])
  }

  lemma TransferFollows(c: Config, s: State, step: Step)
    requires Reached(s, step) && Asserted(s, step) && IsTransfer(step)
    ensures Follows(step, s.pc[step.t].id, Apply(c, s, step).pc[step.t])
  {
  }

  lemma OtherFollows(c: Config, s: State, step: Step, last: Step, id: Id)
    requires Reached(s, step) && Asserted(s, step) && !IsTransfer(step) && !step.Find?
    requires Past(s.pc[step.t]) ==> Follows(last, id, s.pc[step.t])
    ensures var pc' := Apply(c, s, step).pc[step.t];
      Past(pc') ==> Past(s.pc[step.t]) && Follows(last, id, pc')
  {
  }

  lemma FindStartsAnew(c: Config, s: State, step: Step)
    requires Reached(s, step) && Asserted(s, step) && step.Find?
    ensures !Past(Apply(c, s, step).pc[step.t])
  {
  }

  /** The step of another thread. */
  lemma TrailStays(c: Config, states: seq<State>, steps: seq<Step>, i: nat, t: nat)
    requires i < |steps| < |states| && Next(c, states[i], steps[i], states[i + 1]) && steps[i].t != t
    requires t < |states[i].pc| && Trail(states, steps, i, t)
    ensures t < |states[i + 1].pc| && Trail(states, steps, i + 1, t)
  {
    OneThreadMoves(c, states[i], steps[i]);
  }

  /** The thread's own step. */
  lemma TrailGrows(c: Config, states: seq<State>, steps: seq<Step>, i: nat, t: nat)
    requires i < |steps| < |states| && Next(c, states[i], steps[i], states[i + 1]) && steps[i].t == t
    requires t < |states[i].pc| && Trail(states, steps, i, t)
    ensures t < |states[i + 1].pc| && Trail(states, steps, i + 1, t)
  {
    OneThreadMoves(c, states[i], steps[i]);
    if steps[i].Find? {
      FindStartsAnew(c, states[i], steps[i]);
    } else if IsTransfer(steps[i]) {
      TransferFollows(c, states[i], steps[i]);
    } else {
      var k := LastTransfer(steps, i, t);
      if Past(states[i].pc[t]) {
        OtherFollows(c, states[i], steps[i], steps[k.value], states[k.value].pc[t].id);
      } else {
        OtherFollows(c, states[i], steps[i], WriteErr(t), 0);
      }
    }
  }

  ghost function TrailAt(states: seq<State>, steps: seq<Step>, t: nat): nat -> bool {
    (i: nat) => i <= |steps| < |states| && t < |states[i].pc| && Trail(states, steps, i, t)
  }

  lemma TrailCarries(c: Config, states: seq<State>, steps: seq<Step>, t: nat)
    requires Run(c, states, steps) && t < |states[0].pc|
    ensures Carried(TrailAt(states, steps, t), |steps|)
  {
    var p := TrailAt(states, steps, t);
    forall i: nat | i < |steps| && p(i) ensures p(i + 1) {
      assert Next(c, states[i], steps[i], states[i + 1]);
      if steps[i].t == t {
        TrailGrows(c, states, steps, i, t);
      } else {
        TrailStays(c, states, steps, i, t);
      }
    }
  }

  lemma Trails(c: Config, states: seq<State>, steps: seq<Step>, i: nat, t: nat)
    requires Run(c, states, steps) && i <= |steps| && t < |states[0].pc|
    ensures t < |states[i].pc| && Trail(states, steps, i, t)
  {
    TrailCarries(c, states, steps, t);
    HoldsAt(TrailAt(states, steps, t), |steps|, i);
  }

  /**
   * When a get returns data: exactly when its one transfer, a read of the slot it hit or the
   * write of the slot it was granted, went through; the data is then the source's for its
   * id. It returns nothing exactly when that transfer failed.
   */
  lemma ReturnsIff(c: Config, states: seq<State>, steps: seq<Step>, i: nat, t: nat)
    requires Run(c, states, steps) && i <= |steps| && t < |states[0].pc|
    ensures t < |states[i].pc|
    ensures states[i].pc[t].Done? ==>
            var k, pc := LastTransfer(steps, i, t), states[i].pc[t];
            && k.Some? && k.value < i && Made(states, steps, k.value, t) && states[k.value].pc[t].id == pc.id
            && (pc.data == Some(c.Source(pc.id)) <==> steps[k.value] == Read(t, true) || steps[k.value] == WriteOk(t))
            && (pc.data == None <==> steps[k.value] == Read(t, false) || steps[k.value] == WriteErr(t))
  {
    Trails(c, states, steps, i, t);
    if states[i].pc[t].Done? {
      Concurrency.ReaderSafety(c, states, steps, i, t);
    }
  }

  // ---------- how much an eviction does ----------

  /** The last count of free zones by thread `t` in the first `i` steps. */
  ghost function LastCount(steps: seq<Step>, i: nat, t: nat): Option<nat>
    requires i <= |steps|
  {
    if i == 0 then None
    else if steps[i - 1] == CountFree(t) then Some(i - 1)
    else LastCount(steps, i - 1, t)
  }

  /** The zones it has popped since. */
  ghost function PopsSince(steps: seq<Step>, i: nat, t: nat): nat
    requires i <= |steps|
  {
    if i == 0 || steps[i - 1] == CountFree(t) then 0
    else PopsSince(steps, i - 1, t) + (if steps[i - 1] == EvictPop(t) then 1 else 0)
  }

  predicate InLoop(pc: PC) {
    pc.Evicting? || pc.Popped? || pc.Cleared? || pc.Drained?
  }

  ghost predicate OnBudget(c: Config, states: seq<State>, steps: seq<Step>, i: nat, t: nat)
    requires i <= |steps| < |states| && t < |states[i].pc|
  {
    InLoop(states[i].pc[t]) ==>
      var k := LastCount(steps, i, t);
      && k.Some? && k.value < i
      && states[i].pc[t].budget + PopsSince(steps, i, t) == (c.low - |states[k.value].zsm.free|) % 4294967296
  }

  lemma BudgetMoves(c: Config, s: State, step: Step)
    requires Reached(s, step) && Asserted(s, step)
    ensures var pc, pc' := s.pc[step.t], Apply(c, s, step).pc[step.t];
      InLoop(pc') ==>
        if step.CountFree? then pc'.budget == (c.low - |s.zsm.free|) % 4294967296
        else InLoop(pc) && pc'.budget + (if step.EvictPop? then 1 else 0) == pc.budget
  {
  }

  lemma BudgetStep(c: Config, states: seq<State>, steps: seq<Step>, i: nat, t: nat)
    requires i < |steps| < |states| && Next(c, states[i], steps[i], states[i + 1])
    requires t < |states[i].pc| && OnBudget(c, states, steps, i, t)
    ensures t < |states[i + 1].pc| && OnBudget(c, states, steps, i + 1, t)
  {
    OneThreadMoves(c, states[i], steps[i]);
    if steps[i].t == t {
      BudgetMoves(c, states[i], steps[i]);
    }
  }

  ghost function OnBudgetAt(c: Config, states: seq<State>, steps: seq<Step>, t: nat): nat -> bool {
    (i: nat) => i <= |steps| < |states| && t < |states[i].pc| && OnBudget(c, states, steps, i, t)
  }

  lemma BudgetCarries(c: Config, states: seq<State>, steps: seq<Step>, t: nat)
    requires Run(c, states, steps) && t < |states[0].pc|
    ensures Carried(OnBudgetAt(c, states, steps, t), |steps|)
  {
    var p := OnBudgetAt(c, states, steps, t);
    forall i: nat | i < |steps| && p(i) ensures p(i + 1) {
      assert Next(c, states[i], steps[i], states[i + 1]);
      BudgetStep(c, states, steps, i, t);
    }
  }

  /**
   * What one eviction call may still pop is the shortfall of free zones it counted, in 32-bit
   * arithmetic, less what it has popped since.
   */
  lemma BudgetIsHistory(c: Config, states: seq<State>, steps: seq<Step>, i: nat, t: nat)
    requires Run(c, states, steps) && i <= |steps| && t < |states[0].pc|
    ensures t < |states[i].pc| && OnBudget(c, states, steps, i, t)
  {
    BudgetCarries(c, states, steps, t);
    HoldsAt(OnBudgetAt(c, states, steps, t), |steps|, i);
  }
}
