/**
 * The cache under the promotional policy as a concurrent machine. Threads run
 * `zn_cache_get` and `zn_fg_evict`; each critical section, and each access to the device,
 * is one atomic step.
 */
module Machine {
  import opened Types
  import opened LruSpec
  import Payload
  import Z = ZoneSpec
  import M = MapSpec

  /** `random` is the remote data all gets are given; `low` is EVICT_LOW_THRESH_ZONES. */
  datatype Config = Config(numZones: nat, maxActive: nat, maxChunks: nat, low: nat, random: Bytes)
  {
    ghost predicate Valid() {
      1 <= maxActive && 1 <= maxChunks && 4 <= |random|
    }

    function Source(id: Id): Bytes {
      if |random| >= 4 then Payload.Gen(random, id) else []
    }
  }

  /** Where a thread is, with the local variables that matter there. */
  datatype PC =
    | Idle
    | Waiting(id: Id)                                   // asleep on the id's condition variable
    | Woken(id: Id)                                     // about to look the id up again
    | Seeking(id: Id)                                   // owns the write, looking for a slot
    | Writing(id: Id, loc: Loc)
    | Written(id: Id, loc: Loc)                         // the device took all of it
    | WriteFailed(id: Id, loc: Loc)
    | Undoing(id: Id)                                   // slot given back, map entry not yet
    | Returned(id: Id, loc: Loc)                        // zone returned, policy not told yet
    | Publishing(id: Id, loc: Loc)                      // policy told, map not yet
    | Pinned(id: Id, loc: Loc)                          // a hit: the zone's reader count is held
    | Fetched(id: Id, loc: Loc, data: Option<Bytes>)
    | Leaving(id: Id, loc: Loc, data: Option<Bytes>)    // policy told of the read
    | Done(id: Id, data: Option<Bytes>)                 // get has returned
    | EvictEntry(resume: Option<Id>)                    // `resume`: the get that called evict
    | Evicting(resume: Option<Id>, budget: nat)
    | Popped(resume: Option<Id>, budget: nat, victim: nat)
    | Cleared(resume: Option<Id>, budget: nat, victim: nat)
    | Drained(resume: Option<Id>, budget: nat, victim: nat)
  {
    /** The id whose write this thread owns. */
    function Owns(): Option<Id> {
      if Seeking? || Writing? || Written? || WriteFailed? || Undoing? || Returned? || Publishing? then Some(id)
      else if EvictEntry? || Evicting? || Popped? || Cleared? || Drained? then resume
      else None
    }

    predicate Flying() {
      Writing? || Written? || WriteFailed?
    }

    /** The slot this thread was granted and has not published. */
    function Slot(): Option<Loc> {
      if Flying() || Returned? || Publishing? then Some(loc) else None
    }

    predicate Pins() {
      Pinned? || Fetched? || Leaving?
    }

    predicate PinsZone(z: nat) {
      Pins() && loc.zone == z
    }

    /** The zone this thread took off the LRU list and has not reset. */
    function Victim(): Option<nat> {
      if Popped? || Cleared? || Drained? then Some(victim) else None
    }

    /** The zone this thread filled and has not put on the LRU list. */
    function Unlisted(maxChunks: nat): Option<nat> {
      if Returned? && loc.chunk + 1 == maxChunks then Some(loc.zone) else None
    }
  }

  type Disk = map<Loc, Bytes>

  datatype State = State(
    pc: seq<PC>,
    zsm: Z.Zones,
    cmap: M.MapState,
    lru: seq<nat>,
    disk: Disk)

  datatype Step =
    | Find(t: nat, id: Id)
    | Wakeup(t: nat)                    // a spurious wakeup
    | GetSlot(t: nat)
    | Scribble(t: nat, junk: Bytes)     // part of a write: the slot may hold anything
    | WriteOk(t: nat)
    | WriteErr(t: nat)
    | ReturnZone(t: nat)
    | PolicyWrite(t: nat)
    | Insert(t: nat)
    | UndoZone(t: nat)
    | UndoMap(t: nat)
    | Read(t: nat, ok: bool)
    | PolicyRead(t: nat)
    | Unpin(t: nat)
    | EvictBegin(t: nat)
    | CountFree(t: nat)
    | EvictPop(t: nat)
    | EvictStop(t: nat)                 // budget spent, list empty, or the policy lock is taken
    | ClearZone(t: nat)
    | Drain(t: nat)
    | Reset(t: nat, left: Disk)         // a reset zone may hold anything

  ghost predicate Init(c: Config, s: State) {
    && (forall t :: 0 <= t < |s.pc| ==> s.pc[t] == Idle)
    && s.zsm == Z.Initial(c.numZones, c.maxActive, c.maxChunks)
    && s.cmap == M.Initial(c.numZones)
    && s.lru == []
  }

  /** The thread's next step is inside the policy's lock. */
  predicate InPolicy(p: PC) {
    p.Returned? || p.Fetched? || (p.Evicting? && p.budget > 0)
  }

  /** Another thread may hold the policy's lock, so that `t` fails to take it without waiting. */
  predicate Contended(pc: seq<PC>, t: nat) {
    exists u :: 0 <= u < |pc| && u != t && InPolicy(pc[u])
  }

  /** Thread `t` has reached this step. */
  predicate Reached(s: State, step: Step) {
    && step.t < |s.pc|
    && var pc := s.pc[step.t];
       match step
       case Find(_, id) => pc.Idle? || pc.Done? || pc == Woken(id)
       case Wakeup(_) => pc.Waiting?
       case GetSlot(_) => pc.Seeking?
       case Scribble(_, _) => pc.Writing?
       case WriteOk(_) => pc.Writing?
       case WriteErr(_) => pc.Writing?
       case ReturnZone(_) => pc.Written?
       case PolicyWrite(_) => pc.Returned?
       case Insert(_) => pc.Publishing?
       case UndoZone(_) => pc.WriteFailed?
       case UndoMap(_) => pc.Undoing?
       case Read(_, _) => pc.Pinned?
       case PolicyRead(_) => pc.Fetched?
       case Unpin(_) => pc.Leaving?
       case EvictBegin(_) => pc.Idle? || pc.Done?
       case CountFree(_) => pc.EvictEntry?
       case EvictPop(_) => pc.Evicting? && pc.budget > 0 && s.lru != []
       case EvictStop(_) => pc.Evicting? && (pc.budget == 0 || s.lru == [] || Contended(s.pc, step.t))
       case ClearZone(_) => pc.Popped?
       case Drain(_) => pc.Cleared? && pc.victim < |s.cmap.readers| && s.cmap.readers[pc.victim] <= 0
       case Reset(_, _) => pc.Drained?
  }

  /**
   * The assertions the code makes at this step, the bounds its array accesses need, and
   * the managers' own invariants where their operations are functions only under them.
   * None of these ever blocks a thread: in every run they hold wherever a step is reached.
   */
  ghost predicate Asserted(s: State, step: Step)
    requires Reached(s, step)
  {
    var pc := s.pc[step.t];
    match step
    case Find(_, _) => M.TwoWay(s.cmap)
    case GetSlot(_) => Z.Inv(s.zsm)
    case ReturnZone(_) => Z.Inv(s.zsm) && Z.InFlight(s.zsm, pc.loc)
    case UndoZone(_) => Z.Inv(s.zsm) && Z.InFlight(s.zsm, pc.loc)
    case UndoMap(_) => M.IsCond(s.cmap, pc.id)
    case Insert(_) => M.IsCond(s.cmap, pc.id) && pc.loc.zone < |s.cmap.inverse|
    case Unpin(_) => pc.loc.zone < |s.cmap.readers|
    case ClearZone(_) => M.TwoWay(s.cmap) && pc.victim < |s.cmap.inverse|
    case Reset(_, _) => Z.Inv(s.zsm) && pc.victim < |s.zsm.zone| && s.zsm.zone[pc.victim].cond == Z.Full
    case _ => true
  }

  /** No thread holds a slot of this zone that it has not yet published in the map. */
  predicate Published(s: State, z: nat) {
    forall t :: 0 <= t < |s.pc| && s.pc[t].Slot().Some? ==> s.pc[t].Slot().value.zone != z
  }

  /** `g_cond_broadcast`: every thread asleep on `id` is woken. */
  function WakeAll(pc: seq<PC>, id: Id): (r: seq<PC>)
    ensures |r| == |pc|
    ensures forall t :: 0 <= t < |pc| ==> r[t] == if pc[t] == Waiting(id) then Woken(id) else pc[t]
  {
    seq(|pc|, t requires 0 <= t < |pc| => if pc[t] == Waiting(id) then Woken(id) else pc[t])
  }

  function Scrambled(d: Disk, z: nat, junk: Disk): Disk {
    (map l | l in d && l.zone != z :: d[l]) + (map l | l in junk && l.zone == z :: junk[l])
  }

  /** The bytes in a slot; one never written reads as empty. */
  function Content(d: Disk, l: Loc): Bytes {
    if l in d then d[l] else []
  }

  function AfterFind(id: Id, f: M.Found): PC {
    match f
    case Hit(l) => Pinned(id, l)
    case Owner => Seeking(id)
    case Blocked => Waiting(id)
  }

  function AfterGetSlot(id: Id, g: Z.Grant): PC {
    match g
    case Granted(l) => Writing(id, l)
    case Retry => Seeking(id)
    case Evict => EvictEntry(Some(id))
  }

  function Move(s: State, t: nat, pc: PC): State
    requires t < |s.pc|
  {
    s.(pc := s.pc[t := pc])
  }

  /** What the step does. */
  ghost function Apply(c: Config, s: State, step: Step): State
    requires Reached(s, step) && Asserted(s, step)
  {
    var t := step.t;
    var pc := s.pc[t];
    match step
    case Find(_, id) =>
      var (m, f) := M.Find(s.cmap, id);
      Move(s, t, AfterFind(id, f)).(cmap := m)
    case Wakeup(_) => Move(s, t, Woken(pc.id))
    case GetSlot(_) =>
      var (z, g) := Z.GetActive(s.zsm);
      Move(s, t, AfterGetSlot(pc.id, g)).(zsm := z)
    case Scribble(_, junk) => s.(disk := s.disk[pc.loc := junk])
    case WriteOk(_) => Move(s, t, Written(pc.id, pc.loc)).(disk := s.disk[pc.loc := c.Source(pc.id)])
    case WriteErr(_) => Move(s, t, WriteFailed(pc.id, pc.loc))
    case ReturnZone(_) => Move(s, t, Returned(pc.id, pc.loc)).(zsm := Z.Return(s.zsm, pc.loc))
    case PolicyWrite(_) =>
      Move(s, t, Publishing(pc.id, pc.loc)).(
        lru := if pc.loc.chunk + 1 == c.maxChunks then s.lru + [pc.loc.zone] else s.lru)
    case Insert(_) =>
      Move(s.(pc := WakeAll(s.pc, pc.id)), t, Done(pc.id, Some(c.Source(pc.id)))).(
        cmap := M.Insert(s.cmap, pc.id, pc.loc))
    case UndoZone(_) => Move(s, t, Undoing(pc.id)).(zsm := Z.Fail(s.zsm, pc.loc))
    case UndoMap(_) =>
      Move(s.(pc := WakeAll(s.pc, pc.id)), t, Done(pc.id, None)).(cmap := M.FailWrite(s.cmap, pc.id))
    case Read(_, ok) => Move(s, t, Fetched(pc.id, pc.loc, if ok then Some(Content(s.disk, pc.loc)) else None))
    case PolicyRead(_) => Move(s, t, Leaving(pc.id, pc.loc, pc.data)).(lru := Touch(s.lru, pc.loc.zone))
    case Unpin(_) => Move(s, t, Done(pc.id, pc.data)).(cmap := M.Unpin(s.cmap, pc.loc.zone))
    case EvictBegin(_) => Move(s, t, EvictEntry(None))
    case CountFree(_) => Move(s, t, Evicting(pc.resume, Sub32(c.low, |s.zsm.free|)))
    case EvictPop(_) => Move(s, t, Popped(pc.resume, pc.budget - 1, s.lru[0])).(lru := s.lru[1..])
    case EvictStop(_) => Move(s, t, if pc.resume.Some? then Seeking(pc.resume.value) else Idle)
    case ClearZone(_) =>
      Move(s, t, Cleared(pc.resume, pc.budget, pc.victim)).(cmap := M.ClearZone(s.cmap, pc.victim))
    case Drain(_) => Move(s, t, Drained(pc.resume, pc.budget, pc.victim))
    case Reset(_, left) =>
      Move(s, t, Evicting(pc.resume, pc.budget)).(
        zsm := Z.Reset(s.zsm, pc.victim), disk := Scrambled(s.disk, pc.victim, left))
  }

  /** Any step of the program as it is written. */
  ghost predicate RawNext(c: Config, s: State, step: Step, s': State) {
    Reached(s, step) && Asserted(s, step) && s' == Apply(c, s, step)
  }

  /**
   * A step that respects publish-before-evict: a zone is cleared from the map only when
   * no thread is still to publish a slot of it.
   */
  ghost predicate Next(c: Config, s: State, step: Step, s': State) {
    && RawNext(c, s, step, s')
    && (step.ClearZone? ==> Published(s, s.pc[step.t].victim))
  }

  ghost predicate Run(c: Config, states: seq<State>, steps: seq<Step>) {
    && c.Valid()
    && |states| == |steps| + 1
    && Init(c, states[0])
    && forall i :: 0 <= i < |steps| ==> Next(c, states[i], steps[i], states[i + 1])
  }
}
