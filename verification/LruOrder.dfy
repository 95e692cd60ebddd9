/**
 * What "least recently used" means: a history of fills, uses and pops, judged by when each
 * key was last touched, with no list in sight; and the proof that the list agrees.
 */
module LruOrder {
  import opened Types
  import opened LruSpec

  datatype Event<K> = Fill(key: K) | Use(key: K) | Pop(key: K)

  /** The time of the last fill or use of `z`, or -1. */
  ghost function Stamp<K(!new)>(h: seq<Event<K>>, z: K): int {
    if h == [] then -1
    else if h[|h| - 1] == Fill(z) || h[|h| - 1] == Use(z) then |h| - 1
    else Stamp(h[..|h| - 1], z)
  }

  ghost function LiveStep<K(!new)>(live: set<K>, e: Event<K>): set<K> {
    match e
    case Fill(z) => live + {z}
    case Use(_) => live
    case Pop(z) => live - {z}
  }

  /** The keys filled and not popped since. */
  ghost function Live<K(!new)>(h: seq<Event<K>>): set<K> {
    if h == [] then {} else LiveStep(Live(h[..|h| - 1]), h[|h| - 1])
  }

  /** Fills are of new keys, and each pop takes the live key untouched for longest. */
  ghost predicate LruHistory<K(!new)>(h: seq<Event<K>>) {
    h == [] ||
    var p, e := h[..|h| - 1], h[|h| - 1];
    && LruHistory(p)
    && match e
       case Fill(z) => z !in Live(p)
       case Use(_) => true
       case Pop(z) => z in Live(p) && forall y :: y in Live(p) ==> Stamp(p, z) <= Stamp(p, y)
  }

  /** What the list does with an event; None where it could not have happened. */
  ghost function ListStep<K(!new)>(q: seq<K>, e: Event<K>): Option<seq<K>> {
    match e
    case Fill(z) => if z in q then None else Some(q + [z])
    case Use(z) => Some(Touch(q, z))
    case Pop(z) => if q != [] && q[0] == z then Some(q[1..]) else None
  }

  /** The list after a history, starting empty. */
  ghost function ListAfter<K(!new)>(h: seq<Event<K>>): Option<seq<K>> {
    if h == [] then Some([])
    else
      var q := ListAfter(h[..|h| - 1]);
      if q.None? then None else ListStep(q.value, h[|h| - 1])
  }

  /** The list holds the live keys in order of last touch. */
  ghost predicate InOrder<K(!new)>(h: seq<Event<K>>, q: seq<K>) {
    && NoDup(q)
    && (forall z :: z in q <==> z in Live(h))
    && (forall i, j :: 0 <= i < j < |q| ==> Stamp(h, q[i]) < Stamp(h, q[j]))
  }

  lemma {:induction false} StampBound<K(!new)>(h: seq<Event<K>>, z: K)
    ensures -1 <= Stamp(h, z) < |h|
  {
    if h != [] {
      StampBound(h[..|h| - 1], z);
    }
  }

  /** One more event: the time of last touch, and the live keys. */
  lemma Snoc<K(!new)>(h: seq<Event<K>>, e: Event<K>, y: K)
    ensures Stamp(h + [e], y) == if e == Fill(y) || e == Use(y) then |h| else Stamp(h, y)
    ensures Live(h + [e]) == LiveStep(Live(h), e)
    ensures Stamp(h, y) < |h|
  {
    assert (h + [e])[..|h|] == h;
    StampBound(h, y);
  }

  lemma FillInOrder<K(!new)>(h: seq<Event<K>>, q: seq<K>, z: K)
    requires InOrder(h, q) && z !in q
    ensures InOrder(h + [Fill(z)], q + [z])
  {
    forall y: K ensures Stamp(h + [Fill(z)], y) == (if y == z then |h| else Stamp(h, y)) && Stamp(h, y) < |h| {
      Snoc(h, Fill(z), y);
    }
    Snoc(h, Fill(z), z);
  }

  /** Where the elements go when the one at `k` moves to the tail. */
  lemma TouchAt<K(!new)>(q: seq<K>, k: nat)
    requires NoDup(q) && k < |q|
    ensures |Touch(q, q[k])| == |q| && Touch(q, q[k])[|q| - 1] == q[k]
    ensures forall i :: 0 <= i < |q| - 1 ==> Touch(q, q[k])[i] == q[if i < k then i else i + 1]
  {
    WithoutAt(q, q[k], k);
    var w := Without(q, q[k]);
    assert |w| == |q| - 1 && Touch(q, q[k]) == w + [q[k]];
    forall i | 0 <= i < |q| - 1 ensures w[i] == q[if i < k then i else i + 1] {
    }
  }

  lemma TouchSorted<K(!new)>(h: seq<Event<K>>, q: seq<K>, k: nat, i: nat, j: nat)
    requires InOrder(h, q) && k < |q| && i < j < |q|
    ensures |Touch(q, q[k])| == |q|
    ensures Stamp(h + [Use(q[k])], Touch(q, q[k])[i]) < Stamp(h + [Use(q[k])], Touch(q, q[k])[j])
  {
    TouchAt(q, k);
    var r, a := Touch(q, q[k]), if i < k then i else i + 1;
    assert r[i] == q[a] && q[a] != q[k];
    Snoc(h, Use(q[k]), q[a]);
    if j == |q| - 1 {
      assert r[j] == q[k];
      Snoc(h, Use(q[k]), q[k]);
    } else {
      var b := if j < k then j else j + 1;
      assert r[j] == q[b] && q[b] != q[k];
      Snoc(h, Use(q[k]), q[b]);
      assert Stamp(h, q[a]) < Stamp(h, q[b]);
    }
  }

  lemma UseInOrder<K(!new)>(h: seq<Event<K>>, q: seq<K>, z: K)
    requires InOrder(h, q)
    ensures InOrder(h + [Use(z)], Touch(q, z))
  {
    var g, r := h + [Use(z)], Touch(q, z);
    Snoc(h, Use(z), z);
    TouchKeeps(q, z);
    forall i, j | 0 <= i < j < |r| ensures Stamp(g, r[i]) < Stamp(g, r[j]) {
      if z in q {
        var k :| 0 <= k < |q| && q[k] == z;
        TouchSorted(h, q, k, i, j);
      } else {
        Snoc(h, Use(z), q[i]);
        Snoc(h, Use(z), q[j]);
      }
    }
  }

  lemma PopInOrder<K(!new)>(h: seq<Event<K>>, q: seq<K>, z: K)
    requires InOrder(h, q) && q != [] && q[0] == z
    ensures InOrder(h + [Pop(z)], q[1..])
  {
    forall y: K ensures Stamp(h + [Pop(z)], y) == Stamp(h, y) {
      Snoc(h, Pop(z), y);
    }
    Snoc(h, Pop(z), z);
    assert q == [z] + q[1..];
  }

  /** The head is the only listed key with the least time of last touch. */
  lemma HeadIsLeast<K(!new)>(h: seq<Event<K>>, q: seq<K>, z: K)
    requires InOrder(h, q) && z in q
    ensures q[0] == z <==> forall y :: y in Live(h) ==> Stamp(h, z) <= Stamp(h, y)
  {
    assert q[0] in q;
    if q[0] == z {
      forall y | y in Live(h) ensures Stamp(h, z) <= Stamp(h, y) {
        assert y in q;
        var j :| 0 <= j < |q| && q[j] == y;
        assert j > 0 ==> Stamp(h, q[0]) < Stamp(h, q[j]);
      }
    } else {
      var i :| 0 <= i < |q| && q[i] == z;
      assert Stamp(h, q[0]) < Stamp(h, q[i]);
      assert q[0] in Live(h) && Stamp(h, q[0]) < Stamp(h, z);
    }
  }

  /**
   * LRU refinement: the list accepts exactly the histories in which every pop takes the
   * key untouched for longest, and always holds the live keys in order of last touch.
   */
  lemma {:induction false} ListIsLru<K(!new)>(h: seq<Event<K>>)
    ensures ListAfter(h).Some? <==> LruHistory(h)
    ensures ListAfter(h).Some? ==> InOrder(h, ListAfter(h).value)
  {
    if h != [] {
      var p, e := h[..|h| - 1], h[|h| - 1];
      assert h == p + [e];
      ListIsLru(p);
      if LruHistory(p) {
        var q := ListAfter(p).value;
        match e
        case Fill(z) => if z !in q { FillInOrder(p, q, z); }
        case Use(z) => UseInOrder(p, q, z);
        case Pop(z) =>
          if z in q {
            HeadIsLeast(p, q, z);
          }
          if q != [] && q[0] == z {
            PopInOrder(p, q, z);
          }
      }
    }
  }

  lemma OneMoreEvent<K(!new)>(h: seq<Event<K>>, e: Event<K>, q: seq<K>)
    requires ListAfter(h) == Some(q)
    ensures ListAfter(h + [e]) == ListStep(q, e)
  {
    assert (h + [e])[..|h|] == h;
  }

  /** The first `i` batches of events, in order. */
  ghost function Gather<K(!new)>(batch: nat -> seq<Event<K>>, i: nat): seq<Event<K>> {
    if i == 0 then [] else Gather(batch, i - 1) + batch(i - 1)
  }

  /** Each batch leads from the list before it to the list after it. */
  ghost predicate Lead<K(!new)>(batch: nat -> seq<Event<K>>, list: nat -> seq<K>, n: nat) {
    && list(0) == []
    && forall i: nat, h: seq<Event<K>> :: i < n && ListAfter(h) == Some(list(i)) ==>
         ListAfter(h + batch(i)) == Some(list(i + 1))
  }

  lemma {:induction false} GatherList<K(!new)>(batch: nat -> seq<Event<K>>, list: nat -> seq<K>, n: nat, i: nat)
    requires Lead(batch, list, n) && i <= n
    ensures ListAfter(Gather(batch, i)) == Some(list(i))
  {
    if i > 0 {
      GatherList(batch, list, n, i - 1);
    }
  }
}

/** In every concurrent run the LRU list is the list of the run's own history. */
module LruRuns {
  import opened Types
  import opened LruSpec
  import opened LruOrder
  import opened Machine
  import opened Invariants
  import Concurrency

  /** What a step tells the policy. */
  ghost function EventOf(c: Config, s: State, step: Step): Option<Event<nat>>
    requires Reached(s, step)
  {
    var pc := s.pc[step.t];
    match step
    case PolicyWrite(_) => if pc.loc.chunk + 1 == c.maxChunks then Some(Fill(pc.loc.zone)) else None
    case PolicyRead(_) => Some(Use(pc.loc.zone))
    case EvictPop(_) => Some(Pop(s.lru[0]))
    case _ => None
  }

  /** What step `i` of a run tells the policy, if anything. */
  ghost function Told(c: Config, states: seq<State>, steps: seq<Step>): nat -> seq<Event<nat>> {
    (i: nat) =>
      if i < |steps| && i < |states| && Reached(states[i], steps[i]) && EventOf(c, states[i], steps[i]).Some?
      then [EventOf(c, states[i], steps[i]).value] else []
  }

  ghost function ListAt(states: seq<State>): nat -> seq<nat> {
    (i: nat) => if i < |states| then states[i].lru else []
  }

  /** What the first `i` steps told it. */
  ghost function History(c: Config, states: seq<State>, steps: seq<Step>, i: nat): seq<Event<nat>> {
    Gather(Told(c, states, steps), i)
  }

  /** A zone about to be listed is not listed already. */
  lemma FillIsNew(c: Config, s: State, step: Step)
    requires Lists(c, s) && Reached(s, step) && step.PolicyWrite? && s.pc[step.t].loc.chunk + 1 == c.maxChunks
    ensures s.pc[step.t].loc.zone !in s.lru
  {
    var z := s.pc[step.t].loc.zone;
    Concurrency.WhoKeeps(c, s, z);
    assert s.pc[step.t].Unlisted(c.maxChunks) == Some(z);
    assert z in Concurrency.Unlisted(c, s);
    assert Places(c, s, z) <= 1;
  }

  lemma ListFollows(c: Config, s: State, step: Step)
    requires Lists(c, s) && Reached(s, step) && Asserted(s, step)
    ensures match EventOf(c, s, step)
      case Some(e) => ListStep(s.lru, e) == Some(Apply(c, s, step).lru)
      case None => Apply(c, s, step).lru == s.lru
  {
    if step.PolicyWrite? && s.pc[step.t].loc.chunk + 1 == c.maxChunks {
      FillIsNew(c, s, step);
    } else if !step.GetSlot? && !step.ReturnZone? && !step.UndoZone? && !step.Reset?
       && !step.PolicyWrite? && !step.PolicyRead? && !step.EvictPop? {
      QuietForLists(c, s, step);
    }
  }

  /** The list moves by the event of the step, if it has one. */
  ghost predicate ListMoves(c: Config, s: State, step: Step, s': State) {
    && Reached(s, step)
    && match EventOf(c, s, step)
       case Some(e) => ListStep(s.lru, e) == Some(s'.lru)
       case None => s'.lru == s.lru
  }

  lemma RunMoves(c: Config, states: seq<State>, steps: seq<Step>, i: nat)
    requires Run(c, states, steps) && i < |steps|
    ensures ListMoves(c, states[i], steps[i], states[i + 1])
  {
    RunInv(c, states, steps, i);
    assert Next(c, states[i], steps[i], states[i + 1]);
    ListFollows(c, states[i], steps[i]);
  }

  lemma MoveLeads(c: Config, states: seq<State>, steps: seq<Step>, i: nat, h: seq<Event<nat>>)
    requires i < |steps| < |states| && ListMoves(c, states[i], steps[i], states[i + 1])
    requires ListAfter(h) == Some(states[i].lru)
    ensures ListAfter(h + Told(c, states, steps)(i)) == Some(states[i + 1].lru)
  {
    var e := EventOf(c, states[i], steps[i]);
    if e.Some? {
      OneMoreEvent(h, e.value, states[i].lru);
    } else {
      assert h + [] == h;
    }
  }

  lemma StepsLead(c: Config, states: seq<State>, steps: seq<Step>)
    requires Run(c, states, steps)
    ensures Lead(Told(c, states, steps), ListAt(states), |steps|)
  {
    forall i: nat, h: seq<Event<nat>> | i < |steps| && ListAfter(h) == Some(ListAt(states)(i))
      ensures ListAfter(h + Told(c, states, steps)(i)) == Some(ListAt(states)(i + 1))
    {
      RunMoves(c, states, steps, i);
      MoveLeads(c, states, steps, i, h);
    }
  }

  lemma ListOfHistory(c: Config, states: seq<State>, steps: seq<Step>, i: nat)
    requires Lead(Told(c, states, steps), ListAt(states), |steps|) && i <= |steps| < |states|
    ensures ListAfter(History(c, states, steps, i)) == Some(states[i].lru)
  {
    GatherList(Told(c, states, steps), ListAt(states), |steps|, i);
  }

  /**
   * In every interleaving the LRU list holds the listed zones in order of last touch, and
   * a popped zone is the one that was touched longest ago.
   */
  lemma EvictsLeastRecent(c: Config, states: seq<State>, steps: seq<Step>, i: nat, y: nat)
    requires Run(c, states, steps) && i <= |steps|
    ensures var h := History(c, states, steps, i);
      && InOrder(h, states[i].lru)
      && (i < |steps| && steps[i].EvictPop? ==>
            && states[i].lru != []
            && (y in Live(h) ==> Stamp(h, states[i].lru[0]) <= Stamp(h, y)))
  {
    var h := History(c, states, steps, i);
    StepsLead(c, states, steps);
    ListOfHistory(c, states, steps, i);
    ListIsLru(h);
    if i < |steps| && steps[i].EvictPop? {
      assert Next(c, states[i], steps[i], states[i + 1]);
      HeadIsLeast(h, states[i].lru, states[i].lru[0]);
    }
  }
}
