/** Finite paths of a step relation. */
module Paths {
  ghost predicate Path<S(!new), L>(next: (S, L, S) -> bool, s: S, steps: seq<L>, s': S)
    decreases |steps|
  {
    if steps == [] then s' == s
    else exists m :: next(s, steps[0], m) && Path(next, m, steps[1..], s')
  }

  lemma PathStep<S(!new), L>(next: (S, L, S) -> bool, s: S, step: L, s': S)
    requires next(s, step, s')
    ensures Path(next, s, [step], s')
  {
    assert Path(next, s', [step][1..], s');
  }

  lemma {:induction false} PathTrans<S(!new), L>(next: (S, L, S) -> bool, s: S, a: seq<L>, m: S, b: seq<L>, s': S)
    requires Path(next, s, a, m) && Path(next, m, b, s')
    ensures Path(next, s, a + b, s')
    decreases |a|
  {
    if a == [] {
      assert a + b == b;
    } else {
      var k :| next(s, a[0], k) && Path(next, k, a[1..], m);
      PathTrans(next, k, a[1..], m, b, s');
      assert (a + b)[1..] == a[1..] + b;
    }
  }
}

/** What the concurrent machine can reach by steps that respect publish-before-evict. */
module Reachability {
  import opened Types
  import opened Paths
  import opened Machine
  import opened Invariants

  /** Steps that respect publish-before-evict. */
  ghost function Guarded(c: Config): (State, Step, State) -> bool {
    (s: State, step: Step, s': State) => Next(c, s, step, s')
  }

  ghost predicate Reaches(c: Config, s: State, s': State) {
    exists steps :: Path(Guarded(c), s, steps, s')
  }

  lemma ReachesTrans(c: Config, s: State, m: State, s': State)
    requires Reaches(c, s, m) && Reaches(c, m, s')
    ensures Reaches(c, s, s')
  {
    var a :| Path(Guarded(c), s, a, m);
    var b :| Path(Guarded(c), m, b, s');
    PathTrans(Guarded(c), s, a, m, b, s');
  }

  lemma ReachesStep(c: Config, s: State, step: Step, s': State)
    requires Next(c, s, step, s')
    ensures Reaches(c, s, s')
  {
    PathStep(Guarded(c), s, step, s');
  }

  lemma {:induction false} PathInv(c: Config, s: State, steps: seq<Step>, s': State)
    requires Inv(c, s) && Path(Guarded(c), s, steps, s')
    ensures Inv(c, s')
    decreases |steps|
  {
    if steps != [] {
      var m :| Guarded(c)(s, steps[0], m) && Path(Guarded(c), m, steps[1..], s');
      NextKeepsInv(c, s, steps[0], m);
      PathInv(c, m, steps[1..], s');
    }
  }

  lemma ReachedInv(c: Config, s0: State, s: State)
    requires c.Valid() && Init(c, s0) && Reaches(c, s0, s)
    ensures Inv(c, s)
  {
    InitInv(c, s0);
    var steps :| Path(Guarded(c), s0, steps, s);
    PathInv(c, s0, steps, s);
  }

  lemma Advance(c: Config, s0: State, s: State, step: Step) returns (s': State)
    requires c.Valid() && Init(c, s0) && Reaches(c, s0, s) && Reached(s, step) && !step.ClearZone?
    ensures Asserted(s, step) && s' == Apply(c, s, step) && Reaches(c, s0, s')
  {
    ReachedInv(c, s0, s);
    AssertionsHold(c, s, step);
    s' := Apply(c, s, step);
    ReachesStep(c, s, step, s');
    ReachesTrans(c, s0, s, s');
  }

  // ---------- checking the rule when the zone is popped ----------

  /** A step of a program that checks, when it pops a zone, that no slot of it is still to be published. */
  ghost predicate StrictNext(c: Config, s: State, step: Step, s': State) {
    RawNext(c, s, step, s') && (step.EvictPop? ==> Published(s, s.lru[0]))
  }

  ghost predicate StrictRun(c: Config, states: seq<State>, steps: seq<Step>) {
    && c.Valid()
    && |states| == |steps| + 1
    && Init(c, states[0])
    && forall i :: 0 <= i < |steps| ==> StrictNext(c, states[i], steps[i], states[i + 1])
  }

  ghost predicate PoppedPublished(s: State) {
    forall t :: 0 <= t < |s.pc| && s.pc[t].Popped? ==> Published(s, s.pc[t].victim)
  }

  /** A FULL zone is granted no slot, so it stays published. */
  lemma PublishedStays(c: Config, s: State, step: Step, z: nat)
    requires Reached(s, step) && Asserted(s, step) && IsFull(s, z) && Published(s, z)
    ensures Published(Apply(c, s, step), z)
  {
    var s' := Apply(c, s, step);
    OneThreadMoves(c, s, step);
    NewSlotNotFull(c, s, step, z);
    forall t | 0 <= t < |s'.pc| && s'.pc[t].Slot().Some? ensures s'.pc[t].Slot().value.zone != z {
      assert t != step.t ==> s'.pc[t].Slot() == s.pc[t].Slot();
    }
  }

  lemma NewSlotNotFull(c: Config, s: State, step: Step, z: nat)
    requires Reached(s, step) && Asserted(s, step) && IsFull(s, z)
    ensures var pc, pc' := s.pc[step.t], Apply(c, s, step).pc[step.t];
      pc'.Slot().Some? ==> pc'.Slot() == pc.Slot() || pc'.Slot().value.zone != z
  {
    if step.GetSlot? {
      GetSlotEffect(c, s, step);
    }
  }

  lemma StrictIsGuarded(c: Config, s: State, step: Step, s': State)
    requires Lists(c, s) && PoppedPublished(s) && StrictNext(c, s, step, s')
    ensures Next(c, s, step, s') && PoppedPublished(s')
  {
    forall t | 0 <= t < |s'.pc| && s'.pc[t].Popped? ensures Published(s', s'.pc[t].victim) {
      WhoIsPopped(c, s, step, t);
      if s'.pc[t] == s.pc[t] {
        VictimIsFull(c, s, t);
      } else {
        PlacedIsFull(c, s, s.lru[0]);
      }
      PublishedStays(c, s, step, s'.pc[t].victim);
    }
  }

  /** A thread holding a popped zone held it before, or has just popped it. */
  lemma WhoIsPopped(c: Config, s: State, step: Step, t: nat)
    requires Reached(s, step) && Asserted(s, step) && t < |s.pc|
    ensures var s' := Apply(c, s, step);
      t < |s'.pc| && (s'.pc[t].Popped? ==>
        s'.pc[t] == s.pc[t] || (step.EvictPop? && s.lru != [] && s'.pc[t].victim == s.lru[0]))
  {
    OneThreadMoves(c, s, step);
  }

  lemma StrictStep(c: Config, s: State, step: Step, s': State)
    requires Inv(c, s) && PoppedPublished(s) && StrictNext(c, s, step, s')
    ensures Next(c, s, step, s') && Inv(c, s') && PoppedPublished(s')
  {
    StrictIsGuarded(c, s, step, s');
    NextKeepsInv(c, s, step, s');
  }

  lemma {:induction false} StrictInv(c: Config, states: seq<State>, steps: seq<Step>, i: nat)
    requires StrictRun(c, states, steps) && i <= |steps|
    ensures Inv(c, states[i]) && PoppedPublished(states[i])
  {
    if i == 0 {
      InitInv(c, states[0]);
    } else {
      StrictInv(c, states, steps, i - 1);
      assert StrictNext(c, states[i - 1], steps[i - 1], states[i - 1 + 1]);
      StrictStep(c, states[i - 1], steps[i - 1], states[i]);
    }
  }

  /** It is enough to check the rule when the zone is popped: it then still holds at the clear. */
  lemma CheckedAtPop(c: Config, states: seq<State>, steps: seq<Step>)
    requires StrictRun(c, states, steps)
    ensures Run(c, states, steps)
  {
    forall i | 0 <= i < |steps| ensures Next(c, states[i], steps[i], states[i + 1]) {
      StrictInv(c, states, steps, i);
      StrictStep(c, states[i], steps[i], states[i + 1]);
    }
  }
}
