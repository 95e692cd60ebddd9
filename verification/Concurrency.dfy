/** The guarantees of the concurrent cache, over every run that respects publish-before-evict. */
module Concurrency {
  import opened Types
  import opened Counting
  import opened LruSpec
  import opened Machine
  import opened Invariants
  import Z = ZoneSpec
  import M = MapSpec

  /**
   * Transparency and reader safety: whatever the other threads do, the slot a thread has
   * pinned holds the data of the id it looked up, and every buffer a get has fetched or
   * returned is what the source generates for its id.
   */
  lemma ReaderSafety(c: Config, states: seq<State>, steps: seq<Step>, i: nat, t: nat)
    requires Run(c, states, steps) && i <= |steps| && t < |states[i].pc|
    ensures var s, pc := states[i], states[i].pc[t];
      && (pc.Pins() ==> Content(s.disk, pc.loc) == c.Source(pc.id))
      && ((pc.Fetched? || pc.Leaving? || pc.Done?) && pc.data.Some? ==> pc.data.value == c.Source(pc.id))
  {
    RunInv(c, states, steps, i);
    assert DataAt(c, states[i], states[i].pc[t]);
  }

  /** No zone is reset while a thread pins it, and only FULL zones are reset. */
  lemma ResetOnlyUnpinnedFull(c: Config, states: seq<State>, steps: seq<Step>, i: nat, t: nat)
    requires Run(c, states, steps) && i < |steps| && steps[i].Reset? && t < |states[i].pc|
    ensures Reached(states[i], steps[i])
    ensures var z := states[i].pc[steps[i].t].victim;
      IsFull(states[i], z) && !states[i].pc[t].PinsZone(z) && !IsFull(states[i + 1], z)
  {
    RunInv(c, states, steps, i);
    assert Next(c, states[i], steps[i], states[i + 1]);
  }

  /** Every assertion in the code holds wherever a run reaches it. */
  lemma NoAssertionFails(c: Config, states: seq<State>, steps: seq<Step>, i: nat, step: Step)
    requires Run(c, states, steps) && i <= |steps| && Reached(states[i], step)
    ensures Asserted(states[i], step)
  {
    RunInv(c, states, steps, i);
    AssertionsHold(c, states[i], step);
  }

  /** In every run the forward and inverse maps agree, so no two ids share a slot. */
  lemma IndexAgrees(c: Config, states: seq<State>, steps: seq<Step>, i: nat, id: Id, l: Loc)
    requires Run(c, states, steps) && i <= |steps|
    ensures var m := states[i].cmap;
      M.Maps(m, id, l) <==> M.Occupied(m, l) && m.inverse[l.zone][l.chunk] == id
  {
    RunInv(c, states, steps, i);
    var m := states[i].cmap;
    if M.Occupied(m, l) {
      assert M.Maps(m, m.inverse[l.zone][l.chunk], Loc(l.zone, l.chunk));
    }
  }

  /** A slot granted and not yet published is held by one thread only, and is in no map entry. */
  lemma SlotsExclusive(c: Config, states: seq<State>, steps: seq<Step>, i: nat, t: nat, u: nat, id: Id)
    requires Run(c, states, steps) && i <= |steps| && t < |states[i].pc| && u < |states[i].pc| && t != u
    requires states[i].pc[t].Slot().Some?
    ensures states[i].pc[u].Slot() != states[i].pc[t].Slot()
    ensures !M.Maps(states[i].cmap, id, states[i].pc[t].loc)
    ensures states[i].pc[t].Flying() && states[i].pc[u].Flying() ==>
            states[i].pc[t].loc.zone != states[i].pc[u].loc.zone
  {
    RunInv(c, states, steps, i);
    assert SlotAt(states[i], states[i].pc[t]) && SlotAt(states[i], states[i].pc[u]);
    if u < t {
      assert states[i].pc[u].Slot().Some? ==> states[i].pc[u].Slot() != states[i].pc[t].Slot();
    }
  }

  /** A get told to retry spins only while some thread has a write in flight. */
  lemma RetryHasAWriter(c: Config, states: seq<State>, steps: seq<Step>, i: nat)
    requires Run(c, states, steps) && i <= |steps|
    ensures Z.Inv(states[i].zsm)
    ensures Z.GetActive(states[i].zsm).1.Retry? ==> exists t :: 0 <= t < |states[i].pc| && states[i].pc[t].Flying()
  {
    RunInv(c, states, steps, i);
    Z.RefusalMeaning(states[i].zsm);
  }

  // ---------- one writer per id, and no lost wakeup ----------

  /** Thread `t`, and no other, owns the write of `id`. */
  predicate SoleOwner(s: State, t: nat, id: Id) {
    && t < |s.pc| && s.pc[t].Owns() == Some(id)
    && forall u :: 0 <= u < |s.pc| && u != t ==> s.pc[u].Owns() != Some(id)
  }

  lemma OwnersAreSole(s: State, t: nat, id: Id)
    requires Owners(s) && t < |s.pc| && s.pc[t].Owns() == Some(id)
    ensures SoleOwner(s, t, id)
  {
    forall u | 0 <= u < |s.pc| && u != t ensures s.pc[u].Owns() != Some(id) {
      assert if t < u then s.pc[t].Owns() != s.pc[u].Owns() else s.pc[u].Owns() != Some(id);
    }
  }

  /** An id is being written exactly when one thread owns it, and then only that one. */
  lemma SingleWriter(c: Config, states: seq<State>, steps: seq<Step>, i: nat, id: Id)
    requires Run(c, states, steps) && i <= |steps|
    ensures M.IsCond(states[i].cmap, id) <==> exists t :: SoleOwner(states[i], t, id)
  {
    RunInv(c, states, steps, i);
    var s := states[i];
    assert Owners(s);
    if M.IsCond(s.cmap, id) {
      var t :| 0 <= t < |s.pc| && s.pc[t].Owns() == Some(id);
      OwnersAreSole(s, t, id);
    }
  }

  /** A sleeping thread's id is owned by a thread that is awake, so a broadcast is still to come. */
  lemma SleepersHaveAWriter(c: Config, states: seq<State>, steps: seq<Step>, i: nat, t: nat)
    requires Run(c, states, steps) && i <= |steps| && t < |states[i].pc| && states[i].pc[t].Waiting?
    ensures exists u :: 0 <= u < |states[i].pc| && states[i].pc[u].Owns() == Some(states[i].pc[t].id)
                        && !states[i].pc[u].Waiting?
  {
    RunInv(c, states, steps, i);
    var u :| 0 <= u < |states[i].pc| && states[i].pc[u].Owns() == Some(states[i].pc[t].id);
    assert !states[i].pc[u].Waiting?;
  }

  lemma EndWakes(c: Config, s: State, step: Step)
    requires Reached(s, step) && Asserted(s, step) && (step.Insert? || step.UndoMap?)
    ensures var id, s' := s.pc[step.t].id, Apply(c, s, step);
      && |s'.pc| == |s.pc| && !M.IsCond(s'.cmap, id)
      && forall u :: 0 <= u < |s.pc| ==>
           s'.pc[u] != Waiting(id) && (s.pc[u] == Waiting(id) ==> s'.pc[u] == Woken(id))
  {
  }

  /** The end of a write, good or bad, leaves nobody asleep on its id, and the id with no owner. */
  lemma BroadcastWakesAll(c: Config, states: seq<State>, steps: seq<Step>, i: nat, u: nat)
    requires Run(c, states, steps) && i < |steps| && (steps[i].Insert? || steps[i].UndoMap?)
    requires u < |states[i].pc|
    ensures Reached(states[i], steps[i])
    ensures var id, s, s' := states[i].pc[steps[i].t].id, states[i], states[i + 1];
      && |s'.pc| == |s.pc|
      && s'.pc[u] != Waiting(id) && s'.pc[u].Owns() != Some(id)
      && (s.pc[u] == Waiting(id) ==> s'.pc[u] == Woken(id))
  {
    assert Next(c, states[i], steps[i], states[i + 1]);
    RunInv(c, states, steps, i + 1);
    EndWakes(c, states[i], steps[i]);
    assert Owners(states[i + 1]);
  }

  // ---------- the FULL zones ----------

  ghost function FullZones(s: State): set<nat> {
    set z | 0 <= z < |s.zsm.zone| && s.zsm.zone[z].cond == Z.Full
  }

  ghost function Listed(s: State): set<nat> {
    set z | z in s.lru
  }

  ghost function Unlisted(c: Config, s: State): set<nat> {
    set t | 0 <= t < |s.pc| && s.pc[t].Unlisted(c.maxChunks).Some? :: s.pc[t].Unlisted(c.maxChunks).value
  }

  ghost function Victims(s: State): set<nat> {
    set t | 0 <= t < |s.pc| && s.pc[t].Victim().Some? :: s.pc[t].Victim().value
  }

  lemma {:induction false} CountOnce<T>(s: seq<T>, p: T -> bool, i: nat, j: nat)
    requires i < j < |s|
    ensures p(s[i]) && p(s[j]) ==> Count(s, p) >= 2
  {
    var n := |s| - 1;
    if j == n {
      CountZero(s[..n], p);
      assert s[..n][i] == s[i];
    } else {
      CountOnce(s[..n], p, i, j);
    }
  }

  lemma Repeated(q: seq<nat>, i: nat, j: nat)
    requires i < j < |q|
    ensures q[i] == q[j] ==> multiset(q)[q[i]] >= 2
  {
    assert q == q[..j] + q[j..];
    assert q[i] in q[..j] && q[j] in q[j..];
  }

  lemma OnceIsNoDup(q: seq<nat>)
    requires forall z: nat :: multiset(q)[z] <= 1
    ensures NoDup(q)
  {
    forall i, j | 0 <= i < j < |q| ensures q[i] != q[j] {
      Repeated(q, i, j);
    }
  }

  /** Two different threads never have charge of the same zone. */
  lemma KeepersDiffer(c: Config, s: State, z: nat, t: nat, u: nat)
    requires Lists(c, s) && t < |s.pc| && u < |s.pc| && t != u
    ensures Keeper(c.maxChunks, z)(s.pc[t]) ==> !Keeper(c.maxChunks, z)(s.pc[u])
  {
    CountOnce(s.pc, Keeper(c.maxChunks, z), if t < u then t else u, if t < u then u else t);
    assert Places(c, s, z) <= 1;
  }

  /**
   * At every point of every run the FULL zones are exactly the disjoint union of those on
   * the LRU list, those filled but not yet listed and those popped but not yet reset; the
   * list has no duplicate and no two threads have popped the same zone.
   */
  lemma FullPartition(c: Config, states: seq<State>, steps: seq<Step>, i: nat)
    requires Run(c, states, steps) && i <= |steps|
    ensures var s := states[i];
      && NoDup(s.lru)
      && FullZones(s) == Listed(s) + Unlisted(c, s) + Victims(s)
      && Listed(s) !! Unlisted(c, s) !! Victims(s)
      && forall t, u :: 0 <= t < u < |s.pc| && s.pc[t].Victim().Some? ==> s.pc[t].Victim() != s.pc[u].Victim()
  {
    RunInv(c, states, steps, i);
    var s := states[i];
    assert forall z: nat :: multiset(s.lru)[z] <= Places(c, s, z) <= 1;
    OnceIsNoDup(s.lru);
    forall z: nat ensures z in FullZones(s) <==> z in Listed(s) + Unlisted(c, s) + Victims(s)
      ensures z in Listed(s) ==> z !in Unlisted(c, s) + Victims(s)
    {
      WhoKeeps(c, s, z);
      assert (z in s.lru) == (multiset(s.lru)[z] > 0);
    }
    forall t, u | 0 <= t < |s.pc| && 0 <= u < |s.pc| && t != u && s.pc[t].Victim().Some?
      ensures s.pc[t].Victim() != s.pc[u].Victim() && s.pc[t].Victim() != s.pc[u].Unlisted(c.maxChunks)
    {
      KeepersDiffer(c, s, s.pc[t].Victim().value, t, u);
    }
  }

  lemma WhoKeeps(c: Config, s: State, z: nat)
    ensures Count(s.pc, Keeper(c.maxChunks, z)) > 0 <==> z in Unlisted(c, s) + Victims(s)
  {
    var p := Keeper(c.maxChunks, z);
    CountZero(s.pc, p);
    if z in Unlisted(c, s) + Victims(s) {
      var t :| 0 <= t < |s.pc| && (s.pc[t].Unlisted(c.maxChunks) == Some(z) || s.pc[t].Victim() == Some(z));
      assert p(s.pc[t]);
    }
  }

  // ---------- draining the readers of a cleared zone ----------

  ghost function Unread(z: nat): PC -> bool {
    (p: PC) => p.Pinned? && p.loc.zone == z
  }

  ghost function Untold(z: nat): PC -> bool {
    (p: PC) => (p.Pinned? || p.Fetched?) && p.loc.zone == z
  }

  /** The steps left to the threads pinning a zone before the last of them lets go. */
  ghost function Work(s: State, z: nat): nat {
    Count(s.pc, Unread(z)) + Count(s.pc, Untold(z)) + Count(s.pc, Pinner(z))
  }

  /** Some thread waits for the readers of `z` to leave, or has seen them gone. */
  predicate Waits(s: State, t: nat, z: nat) {
    t < |s.pc| && (s.pc[t].Cleared? || s.pc[t].Drained?) && s.pc[t].victim == z
  }

  lemma CountsMove(s: State, s': State, t: nat, p: PC -> bool)
    requires OnlyMoves(s, s', t) && t < |s.pc|
    requires forall id: Id :: !p(Waiting(id)) && !p(Woken(id))
    ensures Count(s'.pc, p) == Count(s.pc, p) - One(p(s.pc[t])) + One(p(s'.pc[t]))
  {
    CountUpdate(s.pc, t, s'.pc[t], p);
    CountAgree(s.pc[t := s'.pc[t]], s'.pc, p);
  }

  /** A zone with nothing in the map gains no reader. */
  lemma NoNewPin(c: Config, s: State, step: Step, z: nat)
    requires z < |s.cmap.inverse| && s.cmap.inverse[z] == map[] && Reached(s, step) && Asserted(s, step)
    requires !s.pc[step.t].PinsZone(z)
    ensures !Apply(c, s, step).pc[step.t].PinsZone(z)
  {
    if !step.Find? && !step.Unpin? {
      QuietForPins(c, s, step);
    }
  }

  /** A thread pinning a zone has only these three steps, in order. */
  lemma PinnerStep(c: Config, s: State, step: Step, z: nat)
    requires Reached(s, step) && Asserted(s, step) && s.pc[step.t].PinsZone(z)
    ensures var pc, pc' := s.pc[step.t], Apply(c, s, step).pc[step.t];
      && (pc.Pinned? ==> pc'.Fetched? && pc'.loc == pc.loc)
      && (pc.Fetched? ==> pc'.Leaving? && pc'.loc == pc.loc)
      && (pc.Leaving? ==> step.Unpin? && pc'.Done?)
  {
  }

  /** How the counts move when thread `t` moves from one place to another. */
  lemma WorkMoves(s: State, s': State, t: nat, z: nat)
    requires OnlyMoves(s, s', t) && t < |s.pc|
    ensures Work(s', z) == Work(s, z) - Weight(s.pc[t], z) + Weight(s'.pc[t], z)
    ensures PinCount(s', z) == PinCount(s, z) - One(s.pc[t].PinsZone(z)) + One(s'.pc[t].PinsZone(z))
  {
    CountsMove(s, s', t, Unread(z));
    CountsMove(s, s', t, Untold(z));
    CountsMove(s, s', t, Pinner(z));
  }

  /** The steps left to one thread. */
  ghost function Weight(pc: PC, z: nat): nat {
    One(Unread(z)(pc)) + One(Untold(z)(pc)) + One(Pinner(z)(pc))
  }

  /** A pinning thread's step takes one off its weight; another's step adds none. */
  lemma WeightStep(c: Config, s: State, step: Step, z: nat)
    requires z < |s.cmap.inverse| && s.cmap.inverse[z] == map[] && Reached(s, step) && Asserted(s, step)
    ensures var pc, pc' := s.pc[step.t], Apply(c, s, step).pc[step.t];
      && Weight(pc', z) == Weight(pc, z) - One(pc.PinsZone(z))
      && One(pc'.PinsZone(z)) == One(pc.PinsZone(z)) - One(step.Unpin? && pc.PinsZone(z))
  {
    if s.pc[step.t].PinsZone(z) {
      PinnerStep(c, s, step, z);
    } else {
      NoNewPin(c, s, step, z);
    }
  }

  lemma WorkStep(c: Config, s: State, step: Step, s': State, e: nat, z: nat)
    requires Inv(c, s) && Next(c, s, step, s') && Waits(s, e, z)
    ensures Work(s', z) == Work(s, z) - One(s.pc[step.t].PinsZone(z))
    ensures PinCount(s', z) == PinCount(s, z) - One(step.Unpin? && s.pc[step.t].PinsZone(z))
  {
    OneThreadMoves(c, s, step);
    WorkMoves(s, s', step.t, z);
    WeightStep(c, s, step, z);
  }

  /** The step is taken by a thread that pins `z`. */
  predicate ByPinner(s: State, step: Step, z: nat) {
    step.t < |s.pc| && s.pc[step.t].PinsZone(z)
  }

  /** The steps in `[i, j)` taken by threads that pin `z`. */
  ghost function PinnerSteps(states: seq<State>, steps: seq<Step>, i: nat, j: nat, z: nat): nat
    requires i <= j <= |steps| <= |states|
    decreases j
  {
    if i == j then 0
    else PinnerSteps(states, steps, i, j - 1, z) + One(ByPinner(states[j - 1], steps[j - 1], z))
  }

  /** Those of them that unpin it. */
  ghost function Unpins(states: seq<State>, steps: seq<Step>, i: nat, j: nat, z: nat): nat
    requires i <= j <= |steps| <= |states|
    decreases j
  {
    if i == j then 0
    else
      Unpins(states, steps, i, j - 1, z) + One(steps[j - 1].Unpin? && ByPinner(states[j - 1], steps[j - 1], z))
  }

  ghost predicate DrainStep(s: State, step: Step, s': State, z: nat) {
    && Work(s', z) == Work(s, z) - One(ByPinner(s, step, z))
    && PinCount(s', z) == PinCount(s, z) - One(step.Unpin? && ByPinner(s, step, z))
  }

  lemma RunDrainStep(c: Config, states: seq<State>, steps: seq<Step>, i: nat, e: nat, z: nat)
    requires Run(c, states, steps) && i < |steps| && Waits(states[i], e, z)
    ensures DrainStep(states[i], steps[i], states[i + 1], z)
  {
    RunInv(c, states, steps, i);
    assert Next(c, states[i], steps[i], states[i + 1]);
    WorkStep(c, states[i], steps[i], states[i + 1], e, z);
  }

  lemma RunPins(c: Config, states: seq<State>, steps: seq<Step>, i: nat, e: nat, z: nat)
    requires Run(c, states, steps) && i <= |steps| && Waits(states[i], e, z)
    ensures z < |states[i].cmap.readers| && states[i].cmap.readers[z] == PinCount(states[i], z)
  {
    RunInv(c, states, steps, i);
  }

  lemma {:induction false} DrainSteps(states: seq<State>, steps: seq<Step>, z: nat, i: nat, j: nat)
    requires i <= j <= |steps| < |states|
    requires forall k :: i <= k < j ==> DrainStep(states[k], steps[k], states[k + 1], z)
    ensures Work(states[j], z) == Work(states[i], z) - PinnerSteps(states, steps, i, j, z)
    ensures PinCount(states[j], z) == PinCount(states[i], z) - Unpins(states, steps, i, j, z)
    decreases j - i
  {
    if i < j {
      DrainSteps(states, steps, z, i, j - 1);
      assert DrainStep(states[j - 1], steps[j - 1], states[j - 1 + 1], z);
    }
  }

  /**
   * Pin drain: while an evictor waits on a zone, its reader count is the number of threads
   * pinning it, falls by exactly one at each unpin and never rises; the work left falls by
   * exactly one at each step of a pinning thread.
   */
  lemma PinDrain(c: Config, states: seq<State>, steps: seq<Step>, e: nat, z: nat, i: nat, j: nat)
    requires Run(c, states, steps) && i <= j <= |steps|
    requires forall k :: i <= k <= j ==> Waits(states[k], e, z)
    ensures z < |states[i].cmap.readers| && z < |states[j].cmap.readers|
    ensures states[j].cmap.readers[z] == PinCount(states[j], z)
    ensures states[j].cmap.readers[z] == states[i].cmap.readers[z] - Unpins(states, steps, i, j, z)
    ensures Work(states[j], z) == Work(states[i], z) - PinnerSteps(states, steps, i, j, z)
  {
    RunPins(c, states, steps, i, e, z);
    RunPins(c, states, steps, j, e, z);
    forall k | i <= k < j ensures DrainStep(states[k], steps[k], states[k + 1], z) {
      RunDrainStep(c, states, steps, k, e, z);
    }
    DrainSteps(states, steps, z, i, j);
  }

  /**
   * The wait is productive: the work left is at most three steps per reader, it is zero
   * exactly when the evictor may go on, and until then some pinning thread has a step to take.
   */
  lemma DrainProgress(c: Config, states: seq<State>, steps: seq<Step>, i: nat, z: nat)
    requires Run(c, states, steps) && i <= |steps| && z < c.numZones
    ensures z < |states[i].cmap.readers|
    ensures Work(states[i], z) <= 3 * states[i].cmap.readers[z]
    ensures Work(states[i], z) == 0 <==> states[i].cmap.readers[z] == 0
    ensures states[i].cmap.readers[z] > 0 ==>
            exists step :: Reached(states[i], step) && Asserted(states[i], step) && states[i].pc[step.t].PinsZone(z)
  {
    RunInv(c, states, steps, i);
    var s := states[i];
    CountWeaker(s.pc, Unread(z), Pinner(z));
    CountWeaker(s.pc, Untold(z), Pinner(z));
    CountZero(s.pc, Pinner(z));
    if s.cmap.readers[z] > 0 {
      var t :| 0 <= t < |s.pc| && Pinner(z)(s.pc[t]);
      var step := if s.pc[t].Pinned? then Read(t, true) else if s.pc[t].Fetched? then PolicyRead(t) else Unpin(t);
      AssertionsHold(c, s, step);
    }
  }

  lemma {:induction false} CountWeaker<T(!new)>(s: seq<T>, p: T -> bool, q: T -> bool)
    requires forall x :: p(x) ==> q(x)
    ensures Count(s, p) <= Count(s, q)
  {
    if s != [] {
      CountWeaker(s[..|s| - 1], p, q);
    }
  }
}
