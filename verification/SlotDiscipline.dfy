/**
 * Runs of the zone manager: what a whole history of requests, returns, failed writes and
 * resets may look like.
 */
module SlotDiscipline {
  import opened Types
  import opened Counting
  import opened ZoneSpec

  datatype Op = Get | Ret(loc: Loc) | Bad(loc: Loc) | Rst(zone: nat)

  /** What the code asserts of its caller. */
  predicate MayCall(s: Zones, op: Op) {
    match op
    case Get => true
    case Ret(l) => InFlight(s, l)
    case Bad(l) => InFlight(s, l)
    case Rst(z) => z < |s.zone| && s.zone[z].cond == Full
  }

  /** One operation. `Inv` is here only to make the operations total; see `NeverBlocked`. */
  ghost predicate Step(s: Zones, op: Op, s': Zones) {
    && Inv(s) && MayCall(s, op)
    && match op
       case Get => s' == GetActive(s).0
       case Ret(l) => s' == Return(s, l)
       case Bad(l) => s' == Fail(s, l)
       case Rst(z) => s' == Reset(s, z)
  }

  ghost predicate Run(n: nat, states: seq<Zones>, ops: seq<Op>) {
    && |states| == |ops| + 1
    && 1 <= states[0].maxActive && 1 <= states[0].maxChunks
    && states[0] == Initial(n, states[0].maxActive, states[0].maxChunks)
    && forall i :: 0 <= i < |ops| ==> Step(states[i], ops[i], states[i + 1])
  }

  /** The chunks of `z` successfully returned since its last reset, oldest first. */
  ghost function Returned(ops: seq<Op>, z: nat): seq<nat> {
    if ops == [] then []
    else
      var before := Returned(ops[..|ops| - 1], z);
      match ops[|ops| - 1]
      case Ret(l) => if l.zone == z then before + [l.chunk] else before
      case Rst(r) => if r == z then [] else before
      case _ => before
  }

  ghost function UpTo(k: nat): seq<nat> {
    seq(k, i => i)
  }

  /** The slot a request is granted in state `s`. */
  ghost function Issued(s: Zones): Option<Loc>
    requires Inv(s)
  {
    if GetActive(s).1.Granted? then Some(GetActive(s).1.loc) else None
  }

  lemma StepKeepsInv(s: Zones, op: Op, s': Zones)
    requires Step(s, op, s')
    ensures Inv(s') && |s'.zone| == |s.zone| && s'.maxChunks == s.maxChunks
  {
    match op
    case Get => GetActiveKeepsInv(s);
    case Ret(l) => ReturnKeepsInv(s, l);
    case Bad(l) => FailKeepsInv(s, l);
    case Rst(z) => ResetKeepsInv(s, z);
  }

  lemma {:induction false} RunInv(n: nat, states: seq<Zones>, ops: seq<Op>, i: nat)
    requires Run(n, states, ops) && i <= |ops|
    ensures Inv(states[i]) && |states[i].zone| == n && states[i].maxChunks == states[0].maxChunks
  {
    if i == 0 {
      InitialInv(n, states[0].maxActive, states[0].maxChunks);
    } else {
      RunInv(n, states, ops, i - 1);
      StepKeepsInv(states[i - 1], ops[i - 1], states[i]);
    }
  }

  /** After any run every operation the code's own assertions allow has its step. */
  lemma NeverBlocked(n: nat, states: seq<Zones>, ops: seq<Op>, op: Op) returns (s': Zones)
    requires Run(n, states, ops) && MayCall(states[|ops|], op)
    ensures Step(states[|ops|], op, s')
  {
    var s := states[|ops|];
    RunInv(n, states, ops, |ops|);
    s' := match op
      case Get => GetActive(s).0
      case Ret(l) => Return(s, l)
      case Bad(l) => Fail(s, l)
      case Rst(z) => Reset(s, z);
  }

  /**
   * After any sequence of operations every zone is in exactly one place, and the active
   * zones are within their limit.
   */
  lemma ZonesPartitioned(n: nat, states: seq<Zones>, ops: seq<Op>, i: nat, z: nat)
    requires Run(n, states, ops) && i <= |ops| && z < n
    ensures var s := states[i];
      && |s.zone| == n
      && multiset(s.free)[z] + multiset(s.active)[z]
       + (if s.zone[z].cond == Writing then 1 else 0) + (if s.zone[z].cond == Full then 1 else 0) == 1
      && s.writes == Count(s.zone, IsWriting) && |s.active| + s.writes <= s.maxActive
      && (s.zone[z].cond in {Active, Writing} ==> s.zone[z].offset < s.maxChunks)
  {
    RunInv(n, states, ops, i);
    EachZoneOnce(states[i], z);
  }

  /** How one operation moves the fill level of a zone. */
  lemma StepFills(s: Zones, op: Op, s': Zones, z: nat)
    requires Step(s, op, s') && z < |s.zone| && z < |s'.zone|
    ensures match op
      case Get => Filled(s', z) == Filled(s, z)
      case Ret(l) => if l.zone == z then l.chunk == Filled(s, z) && Filled(s', z) == l.chunk + 1
                     else Filled(s', z) == Filled(s, z)
      case Bad(l) => Filled(s', z) == Filled(s, z)
      case Rst(r) => Filled(s', z) == if r == z then 0 else Filled(s, z)
  {
    match op
    case Get => GetActiveKeepsInv(s);
    case Ret(l) => ReturnKeepsInv(s, l);
    case Bad(l) =>
    case Rst(r) =>
  }

  lemma ReturnedStep(s: Zones, op: Op, s': Zones, z: nat, before: seq<nat>, after: seq<nat>)
    requires Step(s, op, s') && z < |s.zone| && z < |s'.zone| && before == UpTo(Filled(s, z))
    requires after == match op
      case Ret(l) => if l.zone == z then before + [l.chunk] else before
      case Rst(r) => if r == z then [] else before
      case _ => before
    ensures after == UpTo(Filled(s', z))
  {
    StepFills(s, op, s', z);
    assert UpTo(Filled(s, z)) + [Filled(s, z)] == UpTo(Filled(s, z) + 1);
  }

  /**
   * Slot discipline: at every point of every run the chunks of a zone returned since its
   * last reset are exactly 0, 1, 2, ... with no gap and no repeat, up to the fill level.
   */
  lemma {:induction false} ReturnedInOrder(n: nat, states: seq<Zones>, ops: seq<Op>, i: nat, z: nat)
    requires Run(n, states, ops) && i <= |ops| && z < n
    ensures |states[i].zone| == n
    ensures Returned(ops[..i], z) == UpTo(Filled(states[i], z))
  {
    RunInv(n, states, ops, i);
    if i > 0 {
      ReturnedInOrder(n, states, ops, i - 1, z);
      assert ops[..i][..i - 1] == ops[..i - 1];
      ReturnedStep(states[i - 1], ops[i - 1], states[i], z, Returned(ops[..i - 1], z), Returned(ops[..i], z));
    }
  }

  /**
   * Every slot issued is the next one after those returned, and its zone has no other
   * write in flight.
   */
  lemma IssuedIsNext(n: nat, states: seq<Zones>, ops: seq<Op>, i: nat)
    requires Run(n, states, ops) && i < |ops| && ops[i] == Get
    ensures Inv(states[i])
    ensures Issued(states[i]).Some? ==>
            var l := Issued(states[i]).value;
            && l.zone < |states[i].zone|
            && l.chunk == |Returned(ops[..i], l.zone)| < states[i].maxChunks
            && states[i].zone[l.zone].cond != Writing
            && InFlight(states[i + 1], l)
  {
    RunInv(n, states, ops, i);
    assert Step(states[i], ops[i], states[i + 1]);
    GetActiveKeepsInv(states[i]);
    if Issued(states[i]).Some? {
      ReturnedInOrder(n, states, ops, i, Issued(states[i]).value.zone);
    }
  }

  /** The zone is issued a slot at no step in `[i, j)`. */
  ghost predicate NotIssued(states: seq<Zones>, ops: seq<Op>, z: nat, i: nat, j: nat)
    requires j <= |ops| <= |states|
  {
    forall k :: i <= k < j && ops[k] == Get && Inv(states[k]) && Issued(states[k]).Some? ==>
      Issued(states[k]).value.zone != z
  }

  lemma ActiveStep(s: Zones, op: Op, s': Zones, z: nat)
    requires Step(s, op, s') && z < |s.zone| && s.zone[z].cond == Active
    requires op == Get && Issued(s).Some? ==> Issued(s).value.zone != z
    ensures |s'.zone| == |s.zone| && s'.zone[z] == s.zone[z]
  {
    if op == Get {
      GetActiveKeepsInv(s);
    }
  }

  /** An active zone that is not issued stays as it is, whatever happens to the others. */
  lemma {:induction false} ActiveStays(n: nat, states: seq<Zones>, ops: seq<Op>, z: nat, i: nat, j: nat)
    requires Run(n, states, ops) && i <= j <= |ops| && z < n
    requires |states[i].zone| == n && states[i].zone[z].cond == Active
    requires NotIssued(states, ops, z, i, j)
    ensures |states[j].zone| == n && states[j].zone[z] == states[i].zone[z]
    decreases j - i
  {
    if i < j {
      ActiveStays(n, states, ops, z, i, j - 1);
      assert Step(states[j - 1], ops[j - 1], states[j - 1 + 1]);
      ActiveStep(states[j - 1], ops[j - 1], states[j], z);
    }
  }

  /** A slot whose write failed is the next slot its zone issues, however much later. */
  lemma FailedSlotComesBack(n: nat, states: seq<Zones>, ops: seq<Op>, i: nat, j: nat)
    requires Run(n, states, ops) && i < j < |ops|
    requires ops[i].Bad? && ops[j] == Get
    requires NotIssued(states, ops, ops[i].loc.zone, i + 1, j)
    requires Inv(states[j]) && Issued(states[j]).Some? && Issued(states[j]).value.zone == ops[i].loc.zone
    ensures Issued(states[j]).value == ops[i].loc
  {
    var l := ops[i].loc;
    assert Step(states[i], ops[i], states[i + 1]);
    RunInv(n, states, ops, i);
    RunInv(n, states, ops, i + 1);
    ActiveStays(n, states, ops, l.zone, i + 1, j);
    GetActiveKeepsInv(states[j]);
  }

  // ---------- whose turn it is ----------

  /** The last moment at which `z` was given back, written or not; -1 if it never was. */
  ghost function GivenBack(ops: seq<Op>, z: nat): int {
    if ops == [] then -1
    else
      var op := ops[|ops| - 1];
      if (op.Ret? || op.Bad?) && op.loc.zone == z then |ops| - 1 else GivenBack(ops[..|ops| - 1], z)
  }

  /** The last moment at which `z` was reset; of `n` zones never reset the lower come first. */
  ghost function FreeSince(n: nat, ops: seq<Op>, z: nat): int {
    if ops == [] then z - n
    else if ops[|ops| - 1] == Rst(z) then |ops| - 1
    else FreeSince(n, ops[..|ops| - 1], z)
  }

  lemma {:induction false} MomentBounds(n: nat, ops: seq<Op>, z: nat)
    ensures GivenBack(ops, z) < |ops| && (z < n ==> FreeSince(n, ops, z) < |ops|)
  {
    if ops != [] {
      MomentBounds(n, ops[..|ops| - 1], z);
    }
  }

  /** One more operation. */
  lemma MomentSnoc(n: nat, ops: seq<Op>, op: Op, z: nat)
    requires z < n
    ensures GivenBack(ops + [op], z) == if (op.Ret? || op.Bad?) && op.loc.zone == z then |ops| else GivenBack(ops, z)
    ensures FreeSince(n, ops + [op], z) == if op == Rst(z) then |ops| else FreeSince(n, ops, z)
    ensures GivenBack(ops, z) < |ops| && FreeSince(n, ops, z) < |ops|
  {
    assert (ops + [op])[..|ops|] == ops;
    MomentBounds(n, ops, z);
  }

  /** The zones of a queue are in increasing order of these moments. */
  ghost predicate Increasing(q: seq<nat>, moment: nat -> int) {
    forall i, j :: 0 <= i < j < |q| ==> moment(q[i]) < moment(q[j])
  }

  ghost function ByGivenBack(ops: seq<Op>): nat -> int {
    (z: nat) => GivenBack(ops, z)
  }

  ghost function ByFreeSince(n: nat, ops: seq<Op>): nat -> int {
    (z: nat) => FreeSince(n, ops, z)
  }

  /** A queue that lost its head or gained a latest element is still in order. */
  lemma StaysIncreasing(q: seq<nat>, q': seq<nat>, x: nat, f: nat -> int, g: nat -> int)
    requires Increasing(q, f) && x !in q
    requires forall z :: z in q ==> g(z) == f(z) < g(x)
    requires q' == q || (q != [] && q' == q[1..]) || q' == [] || q' == q + [x]
    ensures Increasing(q', g)
  {
    forall i, j | 0 <= i < j < |q'| ensures g(q'[i]) < g(q'[j]) {
      var d := if q != [] && q' == q[1..] then 1 else 0;
      if q' == q || d == 1 {
        assert q'[i] == q[i + d] && q'[j] == q[j + d];
      } else {
        assert q'[i] == q[i];
      }
    }
  }

  lemma KeepsOrder(q: seq<nat>, q': seq<nat>, f: nat -> int, g: nat -> int)
    requires Increasing(q, f) && (forall z :: z in q ==> g(z) == f(z))
    requires q' == q || (q != [] && q' == q[1..]) || q' == []
    ensures Increasing(q', g)
  {
    forall i, j | 0 <= i < j < |q'| ensures g(q'[i]) < g(q'[j]) {
      var d := if q' == q then 0 else 1;
      assert q'[i] == q[i + d] && q'[j] == q[j + d];
    }
  }

  /** Both queues are in order of the moments at which their zones came to be there. */
  ghost predicate InTurn(n: nat, s: Zones, ops: seq<Op>) {
    Increasing(s.active, ByGivenBack(ops)) && Increasing(s.free, ByFreeSince(n, ops))
  }

  lemma ActiveInTurn(n: nat, s: Zones, op: Op, s': Zones, ops: seq<Op>)
    requires Step(s, op, s') && |s.zone| == n && InTurn(n, s, ops)
    ensures Increasing(s'.active, ByGivenBack(ops + [op]))
  {
    forall z: nat | z < n
      ensures ByGivenBack(ops + [op])(z) ==
              if (op.Ret? || op.Bad?) && op.loc.zone == z then |ops| else ByGivenBack(ops)(z)
      ensures ByGivenBack(ops)(z) < |ops|
    {
      MomentSnoc(n, ops, op, z);
    }
    if op.Ret? || op.Bad? {
      StaysIncreasing(s.active, s'.active, op.loc.zone, ByGivenBack(ops), ByGivenBack(ops + [op]));
    } else {
      GrantMeaning(s);
      GetActiveKeepsInv(s);
      KeepsOrder(s.active, s'.active, ByGivenBack(ops), ByGivenBack(ops + [op]));
    }
  }

  lemma FreeInTurn(n: nat, s: Zones, op: Op, s': Zones, ops: seq<Op>)
    requires Step(s, op, s') && |s.zone| == n && InTurn(n, s, ops)
    ensures Increasing(s'.free, ByFreeSince(n, ops + [op]))
  {
    forall z: nat | z < n
      ensures ByFreeSince(n, ops + [op])(z) == if op == Rst(z) then |ops| else ByFreeSince(n, ops)(z)
      ensures ByFreeSince(n, ops)(z) < |ops|
    {
      MomentSnoc(n, ops, op, z);
    }
    if op.Rst? {
      StaysIncreasing(s.free, s'.free, op.zone, ByFreeSince(n, ops), ByFreeSince(n, ops + [op]));
    } else {
      GrantMeaning(s);
      GetActiveKeepsInv(s);
      KeepsOrder(s.free, s'.free, ByFreeSince(n, ops), ByFreeSince(n, ops + [op]));
    }
  }

  lemma {:induction false} QueuesInTurn(n: nat, states: seq<Zones>, ops: seq<Op>, i: nat)
    requires Run(n, states, ops) && i <= |ops|
    ensures InTurn(n, states[i], ops[..i])
  {
    if i > 0 {
      QueuesInTurn(n, states, ops, i - 1);
      RunInv(n, states, ops, i - 1);
      assert Step(states[i - 1], ops[i - 1], states[i - 1 + 1]);
      ActiveInTurn(n, states[i - 1], ops[i - 1], states[i], ops[..i - 1]);
      FreeInTurn(n, states[i - 1], ops[i - 1], states[i], ops[..i - 1]);
      assert ops[..i] == ops[..i - 1] + [ops[i - 1]];
    }
  }

  /** `z` is in this condition, and of all zones that are it has the earliest moment. */
  ghost predicate Earliest(s: Zones, c: Cond, z: nat, moment: nat -> int) {
    && z < |s.zone| && s.zone[z].cond == c
    && forall y :: 0 <= y < |s.zone| && y != z && s.zone[y].cond == c ==> moment(z) < moment(y)
  }

  lemma HeadIsEarliest(s: Zones, q: seq<nat>, c: Cond, moment: nat -> int)
    requires Queued(s, q, c) && Increasing(q, moment) && q != []
    ensures Earliest(s, c, q[0], moment)
  {
    forall y | 0 <= y < |s.zone| && y != q[0] && s.zone[y].cond == c ensures moment(q[0]) < moment(y) {
      assert y in q;
      var j :| 0 <= j < |q| && q[j] == y;
    }
  }

  /** What a request in state `s`, reached by `ops`, is granted. */
  ghost predicate TurnKept(n: nat, s: Zones, ops: seq<Op>)
    requires Inv(s)
  {
    && (Issued(s).Some? <==> AnyIn(s, Active) || (s.writes < s.maxActive && AnyIn(s, Free)))
    && (Issued(s).Some? ==>
          if AnyIn(s, Active) then Earliest(s, Active, Issued(s).value.zone, ByGivenBack(ops))
          else Earliest(s, Free, Issued(s).value.zone, ByFreeSince(n, ops)))
  }

  lemma TurnIsKept(n: nat, s: Zones, ops: seq<Op>)
    requires Inv(s) && InTurn(n, s, ops)
    ensures TurnKept(n, s, ops)
  {
    GrantMeaning(s);
    if AnyIn(s, Active) {
      HeadIsEarliest(s, s.active, Active, ByGivenBack(ops));
    } else if Issued(s).Some? {
      HeadIsEarliest(s, s.free, Free, ByFreeSince(n, ops));
    }
  }

  /**
   * Zones are granted in turn, judged on the history of operations alone: the active zone
   * that was given back longest ago; if none is active, the free zone that was reset longest
   * ago, those never reset coming first, in order; and a slot is granted whenever there is
   * an active zone, or a free one within the limit on writes.
   */
  lemma GrantedInTurn(n: nat, states: seq<Zones>, ops: seq<Op>, i: nat)
    requires Run(n, states, ops) && i <= |ops|
    ensures Inv(states[i]) && TurnKept(n, states[i], ops[..i])
  {
    RunInv(n, states, ops, i);
    QueuesInTurn(n, states, ops, i);
    TurnIsKept(n, states[i], ops[..i]);
  }
}
