/**
 * No thread is ever stuck: from every reachable state the operations in progress can all
 * be brought to their end, without starting a new one and without breaking the rule.
 */
module Progress {
  import opened Types
  import opened Counting
  import opened Paths
  import opened Machine
  import opened Invariants
  import opened LruSpec
  import opened Concurrency
  import Z = ZoneSpec
  import M = MapSpec

  predicate AtRest(p: PC) {
    p.Idle? || p.Done?
  }

  /** The step takes an operation already begun to another point, and is no spurious wakeup. */
  predicate MovesOn(s: State, step: Step, s': State) {
    && step.t < |s.pc| == |s'.pc| && !AtRest(s.pc[step.t]) && s'.pc[step.t] != s.pc[step.t]
    && !step.Wakeup?
  }

  ghost function Ongoing(c: Config): (State, Step, State) -> bool {
    (s: State, step: Step, s': State) => Next(c, s, step, s') && MovesOn(s, step, s')
  }

  ghost predicate Leads(c: Config, s: State, s': State) {
    exists steps :: Path(Ongoing(c), s, steps, s')
  }

  lemma LeadsTrans(c: Config, s: State, m: State, s': State)
    requires Leads(c, s, m) && Leads(c, m, s')
    ensures Leads(c, s, s')
  {
    var a :| Path(Ongoing(c), s, a, m);
    var b :| Path(Ongoing(c), m, b, s');
    PathTrans(Ongoing(c), s, a, m, b, s');
  }

  lemma LeadsSelf(c: Config, s: State)
    ensures Leads(c, s, s)
  {
    assert Path(Ongoing(c), s, [], s);
  }

  lemma {:induction false} OngoingInv(c: Config, s: State, steps: seq<Step>, s': State)
    requires Inv(c, s) && Path(Ongoing(c), s, steps, s')
    ensures Inv(c, s')
    decreases |steps|
  {
    if steps != [] {
      var m :| Ongoing(c)(s, steps[0], m) && Path(Ongoing(c), m, steps[1..], s');
      NextKeepsInv(c, s, steps[0], m);
      OngoingInv(c, m, steps[1..], s');
    }
  }

  lemma LeadsInv(c: Config, s: State, s': State)
    requires Inv(c, s) && Leads(c, s, s')
    ensures Inv(c, s')
  {
    var steps :| Path(Ongoing(c), s, steps, s');
    OngoingInv(c, s, steps, s');
  }

  /** One step. */
  lemma Goes(c: Config, s: State, step: Step, s': State)
    requires Next(c, s, step, s') && MovesOn(s, step, s')
    ensures Leads(c, s, s')
  {
    PathStep(Ongoing(c), s, step, s');
  }

  // ---------- bringing threads to where they hold nothing ----------

  /**
   * Steps left until the thread holds no slot, no pin and no zone; a thread that may yet
   * list a zone is charged for the four steps of evicting it.
   */
  function Effort(p: PC): nat {
    match p
    case Writing(_, _) => 8
    case Written(_, _) => 7
    case Returned(_, _) => 6
    case Publishing(_, _) => 1
    case WriteFailed(_, _) => 2
    case Undoing(_) => 1
    case Pinned(_, _) => 3
    case Fetched(_, _, _) => 2
    case Leaving(_, _, _) => 1
    case EvictEntry(_) => 2
    case Evicting(_, _) => 1
    case Popped(_, _, _) => 4
    case Cleared(_, _, _) => 3
    case Drained(_, _, _) => 2
    case _ => 0
  }

  /** How far the thread's operation is from its end, in stages. */
  function Rank(p: PC): nat {
    if AtRest(p) then 0
    else if p.Waiting? || p.Woken? then 3
    else if p.Seeking? || p.EvictEntry? || p.Evicting? || p.Victim().Some? then 2
    else 1
  }

  /** The next step of a thread on its way to holding nothing: an evictor goes on while it can. */
  function Tidy(s: State, t: nat): Step
    requires t < |s.pc| && Effort(s.pc[t]) > 0
  {
    match s.pc[t]
    case Writing(_, _) => WriteOk(t)
    case Written(_, _) => ReturnZone(t)
    case Returned(_, _) => PolicyWrite(t)
    case Publishing(_, _) => Insert(t)
    case WriteFailed(_, _) => UndoZone(t)
    case Undoing(_) => UndoMap(t)
    case Pinned(_, _) => Read(t, true)
    case Fetched(_, _, _) => PolicyRead(t)
    case Leaving(_, _, _) => Unpin(t)
    case EvictEntry(_) => CountFree(t)
    case Evicting(_, budget) => if budget > 0 && s.lru != [] then EvictPop(t) else EvictStop(t)
    case Popped(_, _, _) => ClearZone(t)
    case Cleared(_, _, _) => Drain(t)
    case Drained(_, _, _) => Reset(t, map[])
  }

  /** All the steps left: those of the threads, and four for each zone they may have to evict. */
  ghost function Labour(s: State): nat {
    Sum(s.pc, Effort) + 4 * |s.lru|
  }

  /** The step of `t` leaves less to do. */
  predicate Closer(s: State, t: nat, s': State) {
    && t < |s.pc| == |s'.pc| && !AtRest(s.pc[t]) && s'.pc[t] != s.pc[t]
    && Effort(s'.pc[t]) + 4 * |s'.lru| < Effort(s.pc[t]) + 4 * |s.lru|
    && Rank(s'.pc[t]) <= Rank(s.pc[t])
  }

  lemma WriterTidies(c: Config, s: State, t: nat)
    requires t < |s.pc| && (s.pc[t].Slot().Some? || s.pc[t].Undoing?)
    requires Reached(s, Tidy(s, t)) && Asserted(s, Tidy(s, t))
    ensures Closer(s, t, Apply(c, s, Tidy(s, t)))
  {
    var p, p' := s.pc[t], Apply(c, s, Tidy(s, t)).pc[t];
    assert p.Writing? ==> p'.Written?;
    assert p.Written? ==> p'.Returned?;
    assert p.Returned? ==> p'.Publishing?;
    assert p.Publishing? ==> p'.Done?;
    assert p.WriteFailed? ==> p'.Undoing?;
    assert p.Undoing? ==> p'.Done?;
  }

  lemma ReaderTidies(c: Config, s: State, t: nat)
    requires t < |s.pc| && s.pc[t].Pins()
    requires Reached(s, Tidy(s, t)) && Asserted(s, Tidy(s, t))
    ensures Closer(s, t, Apply(c, s, Tidy(s, t)))
  {
    var p, p' := s.pc[t], Apply(c, s, Tidy(s, t)).pc[t];
    TouchLength(s.lru, p.loc.zone);
    assert p.Pinned? ==> p'.Fetched?;
    assert p.Fetched? ==> p'.Leaving?;
    assert p.Leaving? ==> p'.Done?;
  }

  lemma EvictorTidies(c: Config, s: State, t: nat)
    requires t < |s.pc| && (s.pc[t].EvictEntry? || s.pc[t].Evicting?)
    requires Reached(s, Tidy(s, t)) && Asserted(s, Tidy(s, t))
    ensures Closer(s, t, Apply(c, s, Tidy(s, t)))
  {
    var p, p' := s.pc[t], Apply(c, s, Tidy(s, t)).pc[t];
    assert p.EvictEntry? ==> p'.Evicting?;
    assert p.Evicting? ==> p'.Popped? || p'.Seeking? || p'.Idle?;
  }

  lemma KeeperTidies(c: Config, s: State, t: nat)
    requires t < |s.pc| && s.pc[t].Victim().Some?
    requires Reached(s, Tidy(s, t)) && Asserted(s, Tidy(s, t))
    ensures Closer(s, t, Apply(c, s, Tidy(s, t)))
  {
    var p, p' := s.pc[t], Apply(c, s, Tidy(s, t)).pc[t];
    assert p.Popped? ==> p'.Cleared?;
    assert p.Cleared? ==> p'.Drained?;
    assert p.Drained? ==> p'.Evicting?;
  }

  lemma TidyEffect(c: Config, s: State, t: nat)
    requires t < |s.pc| && Effort(s.pc[t]) > 0
    requires Reached(s, Tidy(s, t)) && Asserted(s, Tidy(s, t))
    ensures Closer(s, t, Apply(c, s, Tidy(s, t)))
  {
    if s.pc[t].Slot().Some? || s.pc[t].Undoing? {
      WriterTidies(c, s, t);
    } else if s.pc[t].Pins() {
      ReaderTidies(c, s, t);
    } else if s.pc[t].Victim().Some? {
      KeeperTidies(c, s, t);
    } else {
      EvictorTidies(c, s, t);
    }
  }

  lemma SumMoves(s: State, s': State, t: nat, f: PC -> nat)
    requires OnlyMoves(s, s', t) && t < |s.pc|
    requires forall id: Id :: f(Waiting(id)) == f(Woken(id))
    ensures Sum(s'.pc, f) == Sum(s.pc, f) - f(s.pc[t]) + f(s'.pc[t])
  {
    SumUpdate(s.pc, t, s'.pc[t], f);
    SumAgree(s.pc[t := s'.pc[t]], s'.pc, f);
  }

  /** Whether the thread stands in nobody's way: it holds no slot and no pin. */
  predicate Free(p: PC) {
    p.Slot().None? && !p.Undoing? && !p.Pins()
  }

  /** A thread that stands in the way always has its next step to take. */
  lemma HolderTidies(s: State, t: nat)
    requires t < |s.pc| && !Free(s.pc[t])
    ensures Effort(s.pc[t]) > 0 && Reached(s, Tidy(s, t))
  {
  }

  /** With nobody in the way, so does every evictor, and the rule does not bar it. */
  lemma EvictorFree(s: State, t: nat)
    requires Pins(s) && Clearing(s) && M.TwoWay(s.cmap)
    requires t < |s.pc| && Effort(s.pc[t]) > 0 && forall u :: 0 <= u < |s.pc| ==> Free(s.pc[u])
    ensures Reached(s, Tidy(s, t))
    ensures s.pc[t].Popped? ==> Published(s, s.pc[t].victim)
  {
    if s.pc[t].Cleared? {
      NobodyPins(s, t);
    }
  }

  /** Some thread can always take its next step: first those holding slots or pins, then the evictors. */
  lemma SomeTidy(s: State) returns (t: nat)
    requires Pins(s) && Clearing(s) && M.TwoWay(s.cmap) && Sum(s.pc, Effort) > 0
    ensures t < |s.pc| && Effort(s.pc[t]) > 0 && Reached(s, Tidy(s, t))
    ensures s.pc[t].Popped? ==> Published(s, s.pc[t].victim)
  {
    if u :| 0 <= u < |s.pc| && !Free(s.pc[u]) {
      t := u;
      HolderTidies(s, t);
    } else {
      SumZero(s.pc, Effort);
      t :| 0 <= t < |s.pc| && Effort(s.pc[t]) > 0;
      EvictorFree(s, t);
    }
  }

  lemma NobodyPins(s: State, t: nat)
    requires Pins(s) && Clearing(s) && M.TwoWay(s.cmap)
    requires t < |s.pc| && s.pc[t].Cleared? && forall u :: 0 <= u < |s.pc| ==> !s.pc[u].Pins()
    ensures Reached(s, Drain(t))
  {
    CountZero(s.pc, Pinner(s.pc[t].victim));
    assert s.pc[t].victim < |s.cmap.inverse|;
  }

  /** Every thread is at rest, asleep or woken, or looking for a slot. */
  predicate Calm(s: State) {
    forall t :: 0 <= t < |s.pc| ==> Effort(s.pc[t]) == 0
  }

  lemma TidyGoes(c: Config, s: State, t: nat)
    requires t < |s.pc| && Effort(s.pc[t]) > 0 && (s.pc[t].Popped? ==> Published(s, s.pc[t].victim))
    requires Reached(s, Tidy(s, t)) && Asserted(s, Tidy(s, t)) && Closer(s, t, Apply(c, s, Tidy(s, t)))
    ensures Leads(c, s, Apply(c, s, Tidy(s, t)))
  {
    assert Tidy(s, t).t == t && !Tidy(s, t).Wakeup?;
    Goes(c, s, Tidy(s, t), Apply(c, s, Tidy(s, t)));
  }

  lemma SumsFall(c: Config, s: State, t: nat)
    requires t < |s.pc| && Effort(s.pc[t]) > 0
    requires Reached(s, Tidy(s, t)) && Asserted(s, Tidy(s, t)) && Closer(s, t, Apply(c, s, Tidy(s, t)))
    ensures var s' := Apply(c, s, Tidy(s, t));
      Labour(s') < Labour(s) && Sum(s'.pc, Rank) <= Sum(s.pc, Rank)
  {
    var s' := Apply(c, s, Tidy(s, t));
    OneThreadMoves(c, s, Tidy(s, t));
    SumMoves(s, s', t, Effort);
    SumMoves(s, s', t, Rank);
  }

  /** One step nearer to calm. */
  lemma CalmStep(c: Config, s: State) returns (s': State)
    requires Inv(c, s) && Sum(s.pc, Effort) > 0
    ensures Leads(c, s, s') && Labour(s') < Labour(s) && Sum(s'.pc, Rank) <= Sum(s.pc, Rank)
  {
    var t := SomeTidy(s);
    AssertionsHold(c, s, Tidy(s, t));
    s' := Apply(c, s, Tidy(s, t));
    TidyEffect(c, s, t);
    TidyGoes(c, s, t);
    SumsFall(c, s, t);
  }

  lemma {:induction false} Calms(c: Config, s: State) returns (s': State)
    requires Inv(c, s)
    ensures Leads(c, s, s') && Calm(s') && Sum(s'.pc, Rank) <= Sum(s.pc, Rank)
    decreases Labour(s)
  {
    if Sum(s.pc, Effort) == 0 {
      SumZero(s.pc, Effort);
      LeadsSelf(c, s);
      s' := s;
    } else {
      var m := CalmStep(c, s);
      LeadsInv(c, s, m);
      s' := Calms(c, m);
      LeadsTrans(c, s, m, s');
    }
  }

  // ---------- serving one more thread ----------

  /** In a calm state nothing is in flight, */
  lemma CalmNoRetry(s: State)
    requires Z.Inv(s.zsm) && Slots(s) && Calm(s)
    ensures !Z.GetActive(s.zsm).1.Retry?
  {
    Z.RefusalMeaning(s.zsm);
    assert forall t :: 0 <= t < |s.pc| ==> !s.pc[t].Flying();
  }

  /** every FULL zone is on the list, */
  lemma CalmListed(c: Config, s: State, z: nat)
    requires Lists(c, s) && Calm(s) && IsFull(s, z)
    ensures z in s.lru
  {
    CountZero(s.pc, Keeper(c.maxChunks, z));
    assert forall t :: 0 <= t < |s.pc| ==> !Keeper(c.maxChunks, z)(s.pc[t]);
    assert Places(c, s, z) == 1;
  }

  /** and no zone is pinned or has a slot still to be published. */
  lemma CalmUnpinned(s: State, z: nat)
    requires Pins(s) && Calm(s) && z < |s.cmap.readers|
    ensures s.cmap.readers[z] == 0 && Published(s, z)
  {
    CountZero(s.pc, Pinner(z));
    assert forall t :: 0 <= t < |s.pc| ==> !Pinner(z)(s.pc[t]) && s.pc[t].Slot().None?;
  }

  lemma RankFalls(a: seq<PC>, b: seq<PC>, t: nat)
    requires t < |a| == |b| && b == a[t := b[t]] && Rank(b[t]) < Rank(a[t])
    ensures Sum(b, Rank) < Sum(a, Rank)
  {
    SumUpdate(a, t, b[t], Rank);
  }

  /** A thread is about to be told to evict, with nothing in its way. */
  ghost predicate Dry(c: Config, s: State, t: nat, id: Id) {
    && 1 <= c.low < TWO32 && t < |s.pc| && s.pc[t] == Seeking(id)
    && s.lru != [] && AllReady(s.zsm, s.cmap, s.lru, s.pc)
    && s.zsm.free == [] && s.zsm.active == [] && s.zsm.writes == 0
  }

  lemma CalmIsDry(c: Config, s: State, t: nat)
    requires Inv(c, s) && Calm(s) && c.numZones > 0 && 1 <= c.low < TWO32
    requires t < |s.pc| && s.pc[t].Seeking? && Z.GetActive(s.zsm).1.Evict?
    ensures Dry(c, s, t, s.pc[t].id)
  {
    Z.RefusalMeaning(s.zsm);
    CalmListed(c, s, 0);
    ListedOnce(c, s);
    forall i | 0 <= i < |s.lru| ensures ZoneReady(s.zsm, s.cmap, s.lru[i], s.pc) {
      PlacedIsFull(c, s, s.lru[i]);
      CalmUnpinned(s, s.lru[i]);
    }
  }

  lemma ListedOnce(c: Config, s: State)
    requires Lists(c, s)
    ensures NoDup(s.lru)
  {
    assert forall z: nat :: multiset(s.lru)[z] <= Places(c, s, z) <= 1;
    OnceIsNoDup(s.lru);
  }

  /** Only thread `t` is not where it is in `base`. */
  predicate Apart(s: State, t: nat, base: seq<PC>, p: PC) {
    t < |base| && s.pc == base[t := p]
  }

  // The steps of an eviction, each from any state in which the thread has reached it.

  lemma EvictTold(c: Config, s: State, t: nat, id: Id) returns (s': State)
    requires Apart(s, t, s.pc, Seeking(id)) && Z.Inv(s.zsm) && Z.GetActive(s.zsm) == (s.zsm, Z.Evict)
    ensures Leads(c, s, s') && Apart(s', t, s.pc, EvictEntry(Some(id)))
    ensures s'.zsm == s.zsm && s'.cmap == s.cmap && s'.lru == s.lru
  {
    s' := Apply(c, s, GetSlot(t));
    Goes(c, s, GetSlot(t), s');
  }

  lemma FreeCounted(c: Config, s: State, t: nat, base: seq<PC>, id: Id, b: nat) returns (s': State)
    requires Apart(s, t, base, EvictEntry(Some(id))) && b == Sub32(c.low, |s.zsm.free|)
    ensures Leads(c, s, s') && Apart(s', t, base, Evicting(Some(id), b))
    ensures s'.zsm == s.zsm && s'.cmap == s.cmap && s'.lru == s.lru
  {
    s' := Apply(c, s, CountFree(t));
    Goes(c, s, CountFree(t), s');
  }

  lemma ZonePopped(c: Config, s: State, t: nat, base: seq<PC>, r: Option<Id>, budget: nat) returns (s': State)
    requires Apart(s, t, base, Evicting(r, budget + 1)) && s.lru != []
    ensures Leads(c, s, s') && Apart(s', t, base, Popped(r, budget, s.lru[0]))
    ensures s'.zsm == s.zsm && s'.cmap == s.cmap && s'.lru == s.lru[1..]
  {
    assert Reached(s, EvictPop(t)) && s.pc[t] == Evicting(r, budget + 1);
    s' := Apply(c, s, EvictPop(t));
    assert s'.pc == s.pc[t := Popped(r, budget, s.lru[0])];
    Goes(c, s, EvictPop(t), s');
  }

  /** No thread is to publish a slot of `z`, as far as this can be read off the threads. */
  predicate NoSlotOf(base: seq<PC>, z: nat) {
    forall t :: 0 <= t < |base| && base[t].Slot().Some? ==> base[t].Slot().value.zone != z
  }

  lemma StaysPublished(s: State, t: nat, base: seq<PC>, p: PC, z: nat)
    requires Apart(s, t, base, p) && p.Slot().None? && NoSlotOf(base, z)
    ensures Published(s, z)
  {
  }

  lemma ZoneCleared(c: Config, s: State, t: nat, base: seq<PC>, r: Option<Id>, budget: nat, z: nat) returns (s': State)
    requires Apart(s, t, base, Popped(r, budget, z)) && M.TwoWay(s.cmap) && z < |s.cmap.inverse| && NoSlotOf(base, z)
    ensures Leads(c, s, s') && Apart(s', t, base, Cleared(r, budget, z))
    ensures s'.zsm == s.zsm && s'.cmap == M.ClearZone(s.cmap, z) && s'.lru == s.lru
  {
    StaysPublished(s, t, base, Popped(r, budget, z), z);
    s' := Apply(c, s, ClearZone(t));
    Goes(c, s, ClearZone(t), s');
  }

  lemma ZoneDrained(c: Config, s: State, t: nat, base: seq<PC>, r: Option<Id>, budget: nat, z: nat) returns (s': State)
    requires Apart(s, t, base, Cleared(r, budget, z)) && z < |s.cmap.readers| && s.cmap.readers[z] == 0
    ensures Leads(c, s, s') && Apart(s', t, base, Drained(r, budget, z))
    ensures s'.zsm == s.zsm && s'.cmap == s.cmap && s'.lru == s.lru
  {
    s' := Apply(c, s, Drain(t));
    Goes(c, s, Drain(t), s');
  }

  lemma ZoneFreed(c: Config, s: State, t: nat, base: seq<PC>, r: Option<Id>, budget: nat, z: nat) returns (s': State)
    requires Apart(s, t, base, Drained(r, budget, z)) && Z.Inv(s.zsm) && IsFull(s, z)
    ensures Leads(c, s, s') && Apart(s', t, base, Evicting(r, budget))
    ensures s'.zsm == Z.Reset(s.zsm, z) && s'.cmap == s.cmap && s'.lru == s.lru
  {
    s' := Apply(c, s, Reset(t, map[]));
    Goes(c, s, Reset(t, map[]), s');
  }

  /** The evictor leaves its loop, its budget spent or the list empty. */
  lemma EvictionLeft(c: Config, s: State, t: nat, base: seq<PC>, id: Id, budget: nat) returns (s': State)
    requires Apart(s, t, base, Evicting(Some(id), budget)) && (budget == 0 || s.lru == [])
    ensures Leads(c, s, s') && Apart(s', t, base, Seeking(id)) && s'.zsm == s.zsm
  {
    s' := Apply(c, s, EvictStop(t));
    Goes(c, s, EvictStop(t), s');
  }

  lemma SlotGranted(c: Config, s: State, t: nat, base: seq<PC>, id: Id) returns (s': State)
    requires Apart(s, t, base, Seeking(id)) && Z.Inv(s.zsm) && Z.GetActive(s.zsm).1.Granted?
    ensures Leads(c, s, s') && Apart(s', t, base, Writing(id, Z.GetActive(s.zsm).1.loc))
  {
    s' := Apply(c, s, GetSlot(t));
    Goes(c, s, GetSlot(t), s');
  }

  /** The zone at the head of the list is FULL, and nobody holds a slot of it or pins it. */
  ghost predicate HeadReady(zs: Z.Zones, m: M.MapState, lru: seq<nat>, base: seq<PC>) {
    && Z.Inv(zs) && M.TwoWay(m)
    && lru != [] && lru[0] < |zs.zone| && zs.zone[lru[0]].cond == Z.Full && NoSlotOf(base, lru[0])
    && lru[0] < |m.readers| && m.readers[lru[0]] == 0
  }

  lemma PopAndClear(c: Config, s: State, t: nat, base: seq<PC>, r: Option<Id>, budget: nat) returns (s': State)
    requires Apart(s, t, base, Evicting(r, budget + 1)) && HeadReady(s.zsm, s.cmap, s.lru, base)
    ensures Leads(c, s, s') && Apart(s', t, base, Cleared(r, budget, s.lru[0]))
    ensures s'.zsm == s.zsm && s'.cmap == M.ClearZone(s.cmap, s.lru[0]) && s'.lru == s.lru[1..]
  {
    var m := ZonePopped(c, s, t, base, r, budget);
    s' := ZoneCleared(c, m, t, base, r, budget, s.lru[0]);
    LeadsTrans(c, s, m, s');
  }

  lemma DrainAndReset(c: Config, s: State, t: nat, base: seq<PC>, r: Option<Id>, budget: nat, z: nat)
      returns (s': State)
    requires Apart(s, t, base, Cleared(r, budget, z)) && z < |s.cmap.readers| && s.cmap.readers[z] == 0
    requires Z.Inv(s.zsm) && IsFull(s, z)
    ensures Leads(c, s, s') && Apart(s', t, base, Evicting(r, budget))
    ensures s'.zsm == Z.Reset(s.zsm, z) && s'.cmap == s.cmap && s'.lru == s.lru
  {
    var m := ZoneDrained(c, s, t, base, r, budget, z);
    s' := ZoneFreed(c, m, t, base, r, budget, z);
    LeadsTrans(c, s, m, s');
  }

  /** One round of an evictor's loop, when nobody is in the way. */
  lemma EvictRound(c: Config, s: State, t: nat, base: seq<PC>, r: Option<Id>, budget: nat) returns (s': State)
    requires Apart(s, t, base, Evicting(r, budget + 1)) && HeadReady(s.zsm, s.cmap, s.lru, base)
    ensures Leads(c, s, s') && Apart(s', t, base, Evicting(r, budget))
    ensures s'.zsm == Z.Reset(s.zsm, s.lru[0]) && s'.lru == s.lru[1..] && s'.cmap == M.ClearZone(s.cmap, s.lru[0])
  {
    var m := PopAndClear(c, s, t, base, r, budget);
    s' := DrainAndReset(c, m, t, base, r, budget, s.lru[0]);
    LeadsTrans(c, s, m, s');
  }

  lemma EvictionEntered(c: Config, s: State, t: nat, id: Id) returns (s': State)
    requires Dry(c, s, t, id)
    ensures Leads(c, s, s') && Apart(s', t, s.pc, Evicting(Some(id), c.low))
    ensures s'.zsm == s.zsm && s'.cmap == s.cmap && s'.lru == s.lru
  {
    var m := EvictTold(c, s, t, id);
    Sub32Meaning(c.low, 0);
    s' := FreeCounted(c, m, t, s.pc, id, c.low);
    LeadsTrans(c, s, m, s');
  }

  /** Every listed zone is FULL, listed once, and nobody holds a slot of it or pins it. */
  ghost predicate AllReady(zs: Z.Zones, m: M.MapState, lru: seq<nat>, base: seq<PC>) {
    && Z.Inv(zs) && M.TwoWay(m) && NoDup(lru)
    && forall i :: 0 <= i < |lru| ==> ZoneReady(zs, m, lru[i], base)
  }

  ghost predicate ZoneReady(zs: Z.Zones, m: M.MapState, z: nat, base: seq<PC>) {
    && z < |zs.zone| && zs.zone[z].cond == Z.Full && NoSlotOf(base, z)
    && z < |m.readers| && m.readers[z] == 0
  }

  /** Evicting the head leaves the rest ready. */
  lemma RestReady(zs: Z.Zones, m: M.MapState, lru: seq<nat>, base: seq<PC>)
    requires AllReady(zs, m, lru, base) && lru != []
    ensures HeadReady(zs, m, lru, base)
    ensures AllReady(Z.Reset(zs, lru[0]), M.ClearZone(m, lru[0]), lru[1..], base)
  {
    assert ZoneReady(zs, m, lru[0], base);
    Z.ResetKeepsInv(zs, lru[0]);
    M.ClearZoneKeeps(m, lru[0]);
    forall i | 0 <= i < |lru[1..]|
      ensures ZoneReady(Z.Reset(zs, lru[0]), M.ClearZone(m, lru[0]), lru[1..][i], base)
    {
      assert ZoneReady(zs, m, lru[i + 1], base) && lru[i + 1] != lru[0];
    }
  }

  /** The zones after an eviction of the `n` oldest, for what a request needs to know. */
  ghost predicate Freed(zs: Z.Zones, zs': Z.Zones, n: nat) {
    && Z.Inv(zs') && zs'.writes == zs.writes && |zs'.free| == |zs.free| + n
  }

  /** The whole loop of an evictor: it goes on until its budget is spent or the list is empty. */
  lemma {:induction false} EvictLoop(c: Config, s: State, t: nat, base: seq<PC>, id: Id, budget: nat)
      returns (s': State)
    requires Apart(s, t, base, Evicting(Some(id), budget)) && AllReady(s.zsm, s.cmap, s.lru, base)
    ensures Leads(c, s, s') && Apart(s', t, base, Seeking(id))
    ensures Freed(s.zsm, s'.zsm, if budget < |s.lru| then budget else |s.lru|)
    decreases |s.lru|
  {
    if budget == 0 || s.lru == [] {
      s' := EvictionLeft(c, s, t, base, id, budget);
    } else {
      RestReady(s.zsm, s.cmap, s.lru, base);
      var b: nat := budget - 1;
      var m := EvictRound(c, s, t, base, Some(id), b);
      s' := EvictLoop(c, m, t, base, id, b);
      LeadsTrans(c, s, m, s');
    }
  }

  /** A whole eviction, back to the request. */
  lemma Evicts(c: Config, s: State, t: nat, id: Id) returns (s': State)
    requires Dry(c, s, t, id)
    ensures Leads(c, s, s') && Apart(s', t, s.pc, Seeking(id))
    ensures Freed(s.zsm, s'.zsm, if c.low < |s.lru| then c.low else |s.lru|)
  {
    var m := EvictionEntered(c, s, t, id);
    s' := EvictLoop(c, m, t, s.pc, id, c.low);
    LeadsTrans(c, s, m, s');
  }

  /** With a zone free and no write in flight a request is granted. */
  lemma FreeServes(zs: Z.Zones)
    requires Z.Inv(zs) && zs.writes == 0 && zs.free != []
    ensures Z.GetActive(zs).1.Granted?
  {
  }

  lemma EvictedGranted(c: Config, s: State, t: nat, id: Id) returns (s': State)
    requires Dry(c, s, t, id)
    ensures Leads(c, s, s') && |s'.pc| == |s.pc| && s'.pc == s.pc[t := s'.pc[t]] && s'.pc[t].Writing?
  {
    var m := Evicts(c, s, t, id);
    FreeServes(m.zsm);
    s' := SlotGranted(c, m, t, s.pc, id);
    LeadsTrans(c, s, m, s');
  }

  lemma EvictedServed(c: Config, s: State, t: nat, id: Id) returns (s': State)
    requires Dry(c, s, t, id)
    ensures Leads(c, s, s') && Sum(s'.pc, Rank) < Sum(s.pc, Rank)
  {
    s' := EvictedGranted(c, s, t, id);
    RankFalls(s.pc, s'.pc, t);
  }

  lemma GrantedServed(c: Config, s: State, t: nat, id: Id) returns (s': State)
    requires t < |s.pc| && s.pc[t] == Seeking(id) && Z.Inv(s.zsm) && Z.GetActive(s.zsm).1.Granted?
    ensures Leads(c, s, s') && Sum(s'.pc, Rank) < Sum(s.pc, Rank)
  {
    s' := SlotGranted(c, s, t, s.pc, id);
    RankFalls(s.pc, s'.pc, t);
  }

  /** What a calm state says about a request. */
  lemma CalmRequest(c: Config, s: State, t: nat)
    requires Inv(c, s) && Calm(s) && t < |s.pc| && s.pc[t].Seeking? && c.numZones > 0 && 1 <= c.low < TWO32
    ensures Z.Inv(s.zsm)
    ensures if Z.GetActive(s.zsm).1.Evict? then Dry(c, s, t, s.pc[t].id) else Z.GetActive(s.zsm).1.Granted?
  {
    CalmNoRetry(s);
    if Z.GetActive(s.zsm).1.Evict? {
      CalmIsDry(c, s, t);
    }
  }

  /** A thread looking for a slot can be given one, after an eviction if need be. */
  lemma SeekerServed(c: Config, s: State, t: nat) returns (s': State)
    requires t < |s.pc| && s.pc[t].Seeking? && Z.Inv(s.zsm)
    requires if Z.GetActive(s.zsm).1.Evict? then Dry(c, s, t, s.pc[t].id) else Z.GetActive(s.zsm).1.Granted?
    ensures Leads(c, s, s') && Sum(s'.pc, Rank) < Sum(s.pc, Rank)
  {
    if Z.GetActive(s.zsm).1.Evict? {
      s' := EvictedServed(c, s, t, s.pc[t].id);
    } else {
      s' := GrantedServed(c, s, t, s.pc[t].id);
    }
  }

  predicate Unowned(s: State) {
    forall u :: 0 <= u < |s.pc| ==> s.pc[u].Owns().None?
  }

  /** With no thread owning a write no id is being written, and nobody sleeps. */
  lemma NothingOwned(s: State, t: nat)
    requires Owners(s) && Unowned(s) && t < |s.pc|
    ensures !s.pc[t].Waiting? && (s.pc[t].Woken? ==> !M.IsCond(s.cmap, s.pc[t].id))
  {
  }

  /** So a woken thread finds its id free to take or to read. */
  lemma WokenServed(c: Config, s: State, t: nat) returns (s': State)
    requires M.TwoWay(s.cmap) && t < |s.pc| && s.pc[t].Woken? && !M.IsCond(s.cmap, s.pc[t].id)
    ensures Leads(c, s, s') && Sum(s'.pc, Rank) < Sum(s.pc, Rank)
  {
    var step := Find(t, s.pc[t].id);
    s' := Apply(c, s, step);
    Goes(c, s, step, s');
    assert s'.pc[t].Pinned? || s'.pc[t].Seeking?;
    RankFalls(s.pc, s'.pc, t);
  }

  lemma SomeWoken(s: State) returns (t: nat)
    requires Owners(s) && Unowned(s) && Calm(s) && Sum(s.pc, Rank) > 0
    ensures t < |s.pc| && s.pc[t].Woken? && !M.IsCond(s.cmap, s.pc[t].id)
  {
    SumZero(s.pc, Rank);
    t :| 0 <= t < |s.pc| && Rank(s.pc[t]) > 0;
    NothingOwned(s, t);
    assert Effort(s.pc[t]) == 0;
  }

  /** In a calm state with work left, some thread can be brought a stage further. */
  lemma SomeServed(c: Config, s: State) returns (s': State)
    requires Inv(c, s) && Calm(s) && c.numZones > 0 && 1 <= c.low < TWO32 && Sum(s.pc, Rank) > 0
    ensures Leads(c, s, s') && Sum(s'.pc, Rank) < Sum(s.pc, Rank)
  {
    if t :| 0 <= t < |s.pc| && s.pc[t].Seeking? {
      CalmRequest(c, s, t);
      s' := SeekerServed(c, s, t);
    } else {
      NoSeekerUnowned(s);
      var t := SomeWoken(s);
      s' := WokenServed(c, s, t);
    }
  }

  lemma NoSeekerUnowned(s: State)
    requires Calm(s) && forall t :: 0 <= t < |s.pc| ==> !s.pc[t].Seeking?
    ensures Unowned(s)
  {
    assert forall t :: 0 <= t < |s.pc| ==> Effort(s.pc[t]) == 0;
  }

  /** Every operation has returned. */
  predicate Quiescent(s: State) {
    forall t :: 0 <= t < |s.pc| ==> AtRest(s.pc[t])
  }

  lemma {:induction false} FinishFrom(c: Config, s: State) returns (s': State)
    requires Inv(c, s) && c.numZones > 0 && 1 <= c.low < TWO32
    ensures Leads(c, s, s') && Quiescent(s')
    decreases Sum(s.pc, Rank)
  {
    var m := Calms(c, s);
    if Sum(m.pc, Rank) == 0 {
      SumZero(m.pc, Rank);
      s' := m;
    } else {
      LeadsInv(c, s, m);
      var n := SomeServed(c, m);
      LeadsInv(c, m, n);
      s' := FinishFrom(c, n);
      LeadsTrans(c, m, n, s');
      LeadsTrans(c, s, m, s');
    }
  }

  /**
   * At every point of every run, however the threads stand to each other, the operations in
   * progress can all be brought to their return by steps of their own, with no new one
   * begun and no zone cleared against the rule: there is no deadlock, and
   * publish-before-evict adds none.
   */
  lemma CanFinish(c: Config, states: seq<State>, steps: seq<Step>, i: nat) returns (s': State)
    requires Run(c, states, steps) && i <= |steps| && c.numZones > 0 && 1 <= c.low < TWO32
    ensures Leads(c, states[i], s') && Quiescent(s')
  {
    RunInv(c, states, steps, i);
    s' := FinishFrom(c, states[i]);
  }

  /**
   * So unless every operation has returned, one of them has a step to take that the rule
   * allows and that takes it to another point, so it is neither a retry nor a mere wakeup.
   */
  lemma NoDeadlock(c: Config, states: seq<State>, steps: seq<Step>, i: nat) returns (step: Step)
    requires Run(c, states, steps) && i <= |steps| && c.numZones > 0 && 1 <= c.low < TWO32
    requires !Quiescent(states[i])
    ensures Reached(states[i], step) && Asserted(states[i], step)
    ensures var s' := Apply(c, states[i], step);
      Next(c, states[i], step, s') && MovesOn(states[i], step, s')
  {
    var s' := CanFinish(c, states, steps, i);
    var path :| Path(Ongoing(c), states[i], path, s');
    assert path != [];
    step := path[0];
  }

  /** An evictor barred from clearing its zone waits only for threads that can go on to publish. */
  lemma BarredByPublisher(c: Config, states: seq<State>, steps: seq<Step>, i: nat, e: nat) returns (step: Step)
    requires Run(c, states, steps) && i <= |steps| && e < |states[i].pc| && states[i].pc[e].Popped?
    requires !Published(states[i], states[i].pc[e].victim)
    ensures step.PolicyWrite? || step.Insert?
    ensures Reached(states[i], step) && Asserted(states[i], step)
    ensures states[i].pc[step.t].loc.zone == states[i].pc[e].victim
  {
    var s := states[i];
    RunInv(c, states, steps, i);
    VictimIsFull(c, s, e);
    var w :| 0 <= w < |s.pc| && s.pc[w].Slot().Some? && s.pc[w].Slot().value.zone == s.pc[e].victim;
    assert SlotAt(s, s.pc[w]);
    step := if s.pc[w].Returned? then PolicyWrite(w) else Insert(w);
    AssertionsHold(c, s, step);
  }
}
