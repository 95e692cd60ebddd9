/**
 * The zone state manager: an allocator of (zone, chunk) slots.
 * `Zones` is its whole state as a value; the functions below are its operations,
 * each one critical section of `state_mutex`.
 */
module ZoneSpec {
  import opened Types
  import opened Counting

  datatype Cond = Free | Full | Active | Writing

  datatype Zone = Zone(cond: Cond, offset: nat)

  datatype Zones = Zones(
    zone: seq<Zone>,     // indexed by zone id
    free: seq<nat>,      // queue of free zones, head first
    active: seq<nat>,    // queue of active zones, head first
    writes: nat,         // number of writes in flight
    maxActive: nat,
    maxChunks: nat)

  datatype Grant = Granted(loc: Loc) | Retry | Evict

  predicate IsWriting(z: Zone) {
    z.cond == Writing
  }

  /** The number of slots of a zone that have been written and returned since its last reset. */
  function Filled(s: Zones, z: nat): nat
    requires z < |s.zone|
  {
    if s.zone[z].cond == Full then s.maxChunks else s.zone[z].offset
  }

  ghost predicate Queued(s: Zones, q: seq<nat>, c: Cond) {
    && NoDup(q)
    && (forall i :: 0 <= i < |q| ==> q[i] < |s.zone| && s.zone[q[i]].cond == c)
    && (forall z :: 0 <= z < |s.zone| && s.zone[z].cond == c ==> z in q)
  }

  /** The manager's invariant: every zone is in exactly the place its state field names. */
  ghost predicate Inv(s: Zones) {
    && 1 <= s.maxActive && 1 <= s.maxChunks
    && Queued(s, s.free, Free)
    && Queued(s, s.active, Active)
    && s.writes == Count(s.zone, IsWriting)
    && |s.active| + s.writes <= s.maxActive
    && (forall z :: 0 <= z < |s.zone| ==>
          if s.zone[z].cond in {Active, Writing} then s.zone[z].offset < s.maxChunks else s.zone[z].offset == 0)
  }

  function Initial(n: nat, maxActive: nat, maxChunks: nat): Zones {
    Zones(seq(n, _ => Zone(Free, 0)), seq(n, i => i), [], 0, maxActive, maxChunks)
  }

  /** A write to exactly this slot is in flight. */
  predicate InFlight(s: Zones, l: Loc) {
    l.zone < |s.zone| && s.zone[l.zone] == Zone(Writing, l.chunk)
  }

  /** Opens the free queue's head and appends it to the active queue. */
  function Open(s: Zones): Zones
    requires Inv(s) && s.free != []
  {
    var z := s.free[0];
    s.(zone := s.zone[z := Zone(Active, 0)], free := s.free[1..], active := s.active + [z])
  }

  /** Takes the active queue's head for a write. */
  function Take(s: Zones): Zones
    requires Inv(s) && s.active != []
  {
    var z := s.active[0];
    s.(zone := s.zone[z := Zone(Writing, s.zone[z].offset)], active := s.active[1..], writes := s.writes + 1)
  }

  /** Whether a request is served, and if so whether it must open a zone first. */
  function GetActive(s: Zones): (Zones, Grant)
    requires Inv(s)
  {
    if |s.active| + s.writes == 0 && |s.free| == 0 then
      (s, Evict)
    else if s.active != [] then
      (Take(s), Granted(Loc(s.active[0], s.zone[s.active[0]].offset)))
    else if s.writes < s.maxActive && s.free != [] then
      OpenKeepsInv(s);
      (Take(Open(s)), Granted(Loc(s.free[0], 0)))
    else
      (s, Retry)
  }

  /** The slot was written: the zone moves on, and becomes full after its last chunk. */
  function Return(s: Zones, l: Loc): Zones
    requires Inv(s) && InFlight(s, l)
  {
    WritingCounted(s, l.zone);
    if l.chunk + 1 == s.maxChunks then
      s.(zone := s.zone[l.zone := Zone(Full, 0)], writes := s.writes - 1)
    else
      s.(zone := s.zone[l.zone := Zone(Active, l.chunk + 1)], active := s.active + [l.zone], writes := s.writes - 1)
  }

  /** The write failed: the zone becomes active again at the same chunk. */
  function Fail(s: Zones, l: Loc): Zones
    requires Inv(s) && InFlight(s, l)
  {
    WritingCounted(s, l.zone);
    s.(zone := s.zone[l.zone := Zone(Active, l.chunk)], active := s.active + [l.zone], writes := s.writes - 1)
  }

  /** Resets a full zone. */
  function Reset(s: Zones, z: nat): Zones
    requires Inv(s) && z < |s.zone| && s.zone[z].cond == Full
  {
    s.(zone := s.zone[z := Zone(Free, 0)], free := s.free + [z])
  }

  lemma WritingCounted(s: Zones, z: nat)
    requires Inv(s) && z < |s.zone| && s.zone[z].cond == Writing
    ensures s.writes >= 1
  {
    CountZero(s.zone, IsWriting);
  }

  lemma InitialInv(n: nat, maxActive: nat, maxChunks: nat)
    requires 1 <= maxActive && 1 <= maxChunks
    ensures Inv(Initial(n, maxActive, maxChunks))
  {
    var s := Initial(n, maxActive, maxChunks);
    CountZero(s.zone, IsWriting);
    forall z | 0 <= z < n ensures z in s.free {
      assert s.free[z] == z;
    }
  }

  lemma OpenKeepsInv(s: Zones)
    requires Inv(s) && s.free != [] && s.active == [] && s.writes < s.maxActive
    ensures Inv(Open(s)) && Open(s).active == [s.free[0]]
    ensures Open(s).zone[s.free[0]] == Zone(Active, 0)
  {
    CountUpdate(s.zone, s.free[0], Zone(Active, 0), IsWriting);
  }

  lemma TakeKeepsInv(s: Zones)
    requires Inv(s) && s.active != []
    ensures Inv(Take(s))
  {
    var z := s.active[0];
    CountUpdate(s.zone, z, Zone(Writing, s.zone[z].offset), IsWriting);
  }

  /** A request keeps the invariant; a granted slot is the next unwritten one of its zone. */
  lemma GetActiveKeepsInv(s: Zones)
    requires Inv(s)
    ensures var (s', g) := GetActive(s);
      && Inv(s') && |s'.zone| == |s.zone|
      && (g.Granted? ==>
            && g.loc.zone < |s.zone| && s.zone[g.loc.zone].cond in {Free, Active}
            && g.loc.chunk == Filled(s, g.loc.zone)
            && s'.zone == s.zone[g.loc.zone := Zone(Writing, g.loc.chunk)])
      && (!g.Granted? ==> s' == s)
  {
    if s.active != [] {
      TakeKeepsInv(s);
    } else if s.writes < s.maxActive && s.free != [] {
      OpenKeepsInv(s);
      TakeKeepsInv(Open(s));
    }
  }

  lemma LastReturnKeepsInv(s: Zones, l: Loc)
    requires Inv(s) && InFlight(s, l) && l.chunk + 1 == s.maxChunks
    ensures Inv(Return(s, l))
  {
    CountUpdate(s.zone, l.zone, Zone(Full, 0), IsWriting);
  }

  lemma EarlyReturnKeepsInv(s: Zones, l: Loc)
    requires Inv(s) && InFlight(s, l) && l.chunk + 1 < s.maxChunks
    ensures Inv(Return(s, l))
  {
    CountUpdate(s.zone, l.zone, Zone(Active, l.chunk + 1), IsWriting);
  }

  lemma ReturnKeepsInv(s: Zones, l: Loc)
    requires Inv(s) && InFlight(s, l)
    ensures Inv(Return(s, l)) && Filled(Return(s, l), l.zone) == l.chunk + 1
  {
    if l.chunk + 1 == s.maxChunks {
      LastReturnKeepsInv(s, l);
    } else {
      EarlyReturnKeepsInv(s, l);
    }
  }

  lemma FailKeepsInv(s: Zones, l: Loc)
    requires Inv(s) && InFlight(s, l)
    ensures Inv(Fail(s, l)) && Filled(Fail(s, l), l.zone) == l.chunk
  {
    CountUpdate(s.zone, l.zone, Zone(Active, l.chunk), IsWriting);
  }

  /** What a return comes to: one more chunk of that zone; it is FULL then, or active again, behind the others. */
  lemma ReturnMeaning(s: Zones, l: Loc, z: nat)
    requires Inv(s) && InFlight(s, l) && z < |s.zone|
    ensures var r := Return(s, l);
      && |r.zone| == |s.zone| && r.writes == s.writes - 1 && r.free == s.free
      && Filled(r, z) == (if z == l.zone then l.chunk + 1 else Filled(s, z))
      && (if l.chunk + 1 == s.maxChunks then r.zone[l.zone].cond == Full && r.active == s.active
          else r.zone[l.zone].cond == Active && r.active == s.active + [l.zone])
  {
    ReturnKeepsInv(s, l);
  }

  /** What a failed write comes to: the zone is active again, behind the others, as full as it was. */
  lemma FailMeaning(s: Zones, l: Loc, z: nat)
    requires Inv(s) && InFlight(s, l) && z < |s.zone|
    ensures var r := Fail(s, l);
      && |r.zone| == |s.zone| && r.writes == s.writes - 1 && r.free == s.free
      && Filled(r, z) == (if z == l.zone then l.chunk else Filled(s, z))
      && r.zone[l.zone].cond == Active && r.active == s.active + [l.zone]
  {
    FailKeepsInv(s, l);
  }

  lemma ResetKeepsInv(s: Zones, z: nat)
    requires Inv(s) && z < |s.zone| && s.zone[z].cond == Full
    ensures Inv(Reset(s, z)) && Filled(Reset(s, z), z) == 0
  {
    CountUpdate(s.zone, z, Zone(Free, 0), IsWriting);
  }

  lemma {:induction false} OnceInQueue(q: seq<nat>, z: nat)
    requires NoDup(q)
    ensures multiset(q)[z] == if z in q then 1 else 0
  {
    if q != [] {
      var n := |q| - 1;
      OnceInQueue(q[..n], z);
      assert q == q[..n] + [q[n]];
    }
  }

  /** Every zone is in exactly one place, once, and the number of writes in flight is the number of writing zones. */
  lemma EachZoneOnce(s: Zones, z: nat)
    requires Inv(s) && z < |s.zone|
    ensures multiset(s.free)[z] + multiset(s.active)[z]
          + (if s.zone[z].cond == Writing then 1 else 0) + (if s.zone[z].cond == Full then 1 else 0) == 1
    ensures z in s.free <==> s.zone[z].cond == Free
    ensures z in s.active <==> s.zone[z].cond == Active
  {
    OnceInQueue(s.free, z);
    OnceInQueue(s.active, z);
  }

  /**
   * A request is turned away for eviction exactly when every zone is full, and told to
   * retry exactly when no zone is active, a write is in flight, and either the limit on
   * active zones is reached or no zone is free.
   */
  lemma RefusalMeaning(s: Zones)
    requires Inv(s)
    ensures GetActive(s).1.Evict? <==> forall z :: 0 <= z < |s.zone| ==> s.zone[z].cond == Full
    ensures GetActive(s).1.Retry? <==>
            && (forall z :: 0 <= z < |s.zone| ==> s.zone[z].cond != Active)
            && (exists z :: 0 <= z < |s.zone| && s.zone[z].cond == Writing)
            && (s.writes == s.maxActive || forall z :: 0 <= z < |s.zone| ==> s.zone[z].cond != Free)
  {
    CountZero(s.zone, IsWriting);
    assert s.free != [] ==> s.zone[s.free[0]].cond == Free;
    assert s.active != [] ==> s.zone[s.active[0]].cond == Active;
  }

  predicate AnyIn(s: Zones, c: Cond) {
    exists z :: 0 <= z < |s.zone| && s.zone[z].cond == c
  }

  /**
   * Which zone serves a request, and what becomes of the queues: the head of the active
   * queue as long as any zone is active, and only otherwise the head of the free queue.
   */
  lemma GrantMeaning(s: Zones)
    requires Inv(s)
    ensures GetActive(s).1.Granted? <==> AnyIn(s, Active) || (s.writes < s.maxActive && AnyIn(s, Free))
    ensures AnyIn(s, Active) ==>
      && s.active != [] && GetActive(s).1 == Granted(Loc(s.active[0], s.zone[s.active[0]].offset))
      && GetActive(s).0.active == s.active[1..] && GetActive(s).0.free == s.free
    ensures !AnyIn(s, Active) && GetActive(s).1.Granted? ==>
      && s.free != [] && GetActive(s).1 == Granted(Loc(s.free[0], 0))
      && GetActive(s).0.active == [] && GetActive(s).0.free == s.free[1..]
  {
    assert s.free != [] ==> s.zone[s.free[0]].cond == Free;
    assert s.active != [] ==> s.zone[s.active[0]].cond == Active;
    if s.active == [] && s.writes < s.maxActive && s.free != [] {
      OpenKeepsInv(s);
      assert s.active + [s.free[0]] == [s.free[0]];
    }
  }
}

/** The manager as the program keeps it: a zone array and two queues changed in place. */
module ZoneManager {
  import opened Types
  import opened ZoneSpec

  class Manager {
    const zone: array<Zone>
    const maxActive: nat
    const maxChunks: nat
    var free: seq<nat>
    var active: seq<nat>
    var writes: nat

    ghost function View(): Zones
      reads this, zone
    {
      Zones(zone[..], free, active, writes, maxActive, maxChunks)
    }

    ghost predicate Valid()
      reads this, zone
    {
      Inv(View())
    }

    constructor (numZones: nat, maxActive: nat, maxChunks: nat)
      requires 1 <= maxActive && 1 <= maxChunks
      ensures Valid() && fresh(zone)
      ensures View() == Initial(numZones, maxActive, maxChunks)
    {
      this.maxActive, this.maxChunks := maxActive, maxChunks;
      zone := new Zone[numZones](_ => Zone(Free, 0));
      active, writes, free := [], 0, [];
      new;
      for i := 0 to numZones
        invariant free == seq(i, j => j)
        invariant active == [] && writes == 0
        invariant forall j :: 0 <= j < numZones ==> zone[j] == Zone(Free, 0)
      {
        free := free + [i];
      }
      InitialInv(numZones, maxActive, maxChunks);
      assert View() == Initial(numZones, maxActive, maxChunks);
    }

    /** `zsm_get_active_zone` */
    method GetActiveZone() returns (g: Grant)
      requires Valid()
      modifies this, zone
      ensures Valid()
      ensures (View(), g) == GetActive(old(View()))
    {
      GetActiveKeepsInv(View());
      if |active| + writes == 0 && |free| == 0 {
        return Evict;
      }
      if active == [] {
        if writes < maxActive && free != [] {
          OpenKeepsInv(View());
          OpenHead();
        } else {
          return Retry;
        }
      }
      g := TakeHead();
    }

    /** The rest of `zsm_get_active_zone`: the head of the active queue goes to writing. */
    method TakeHead() returns (g: Grant)
      requires Valid() && active != []
      modifies this, zone
      ensures View() == Take(old(View()))
      ensures g == Granted(Loc(old(active[0]), old(zone[active[0]].offset)))
    {
      var z := active[0];
      g := Granted(Loc(z, zone[z].offset));
      active := active[1..];
      zone[z] := Zone(Writing, zone[z].offset);
      writes := writes + 1;
    }

    /** The oldest free zone is taken off its queue and opened; within the limit that succeeds. */
    method OpenHead()
      requires Valid() && free != [] && |active| + writes < maxActive
      modifies this, zone
      ensures View() == Open(old(View()))
    {
      var z := free[0];
      free := free[1..];
      var ret := OpenZone(z);
      assert ret == 0;
    }

    /** `open_zone`: refused exactly when the limit on active zones is reached, changing nothing. */
    method OpenZone(z: nat) returns (ret: int)
      requires z < zone.Length && zone[z].cond == Free
      modifies this`active, zone
      ensures ret in {0, -1} && (ret == -1 <==> |old(active)| + writes >= maxActive)
      ensures ret == -1 ==> active == old(active) && zone[..] == old(zone[..])
      ensures ret == 0 ==> active == old(active) + [z] && zone[..] == old(zone[..])[z := Zone(Active, 0)]
    {
      if |active| + writes >= maxActive {
        return -1;
      }
      zone[z] := Zone(Active, 0);
      active := active + [z];
      return 0;
    }

    /** `zsm_return_active_zone` with `close_zone` */
    method ReturnActiveZone(l: Loc)
      requires Valid() && InFlight(View(), l)
      modifies this, zone
      ensures Valid()
      ensures View() == Return(old(View()), l)
    {
      ReturnKeepsInv(View(), l);
      WritingCounted(View(), l.zone);
      writes := writes - 1;
      zone[l.zone] := zone[l.zone].(offset := zone[l.zone].offset + 1);
      if zone[l.zone].offset == maxChunks {
        zone[l.zone] := Zone(Full, 0);
      } else {
        zone[l.zone] := zone[l.zone].(cond := Active);
        active := active + [l.zone];
      }
      assert View() == Return(old(View()), l);
    }

    /** `zsm_failed_to_write` */
    method FailedToWrite(l: Loc)
      requires Valid() && InFlight(View(), l)
      modifies this, zone
      ensures Valid()
      ensures View() == Fail(old(View()), l)
    {
      FailKeepsInv(View(), l);
      WritingCounted(View(), l.zone);
      writes := writes - 1;
      zone[l.zone] := zone[l.zone].(cond := Active);
      active := active + [l.zone];
    }

    /** `zsm_evict` with `reset_zone` */
    method EvictZone(z: nat)
      requires Valid() && z < zone.Length && zone[z].cond == Full
      modifies this, zone
      ensures Valid()
      ensures View() == Reset(old(View()), z)
    {
      ResetKeepsInv(View(), z);
      zone[z] := Zone(Free, 0);
      free := free + [z];
    }

    /** `zsm_get_num_full_zones` counts by scanning the zone array. */
    method NumFullZones() returns (n: nat)
      requires Valid()
      ensures n == |set z | 0 <= z < zone.Length && zone[z].cond == Full|
    {
      n := 0;
      ghost var seen: set<nat> := {};
      for i := 0 to zone.Length
        invariant seen == set z | 0 <= z < i && zone[z].cond == Full
        invariant n == |seen|
      {
        if zone[i].cond == Full {
          n := n + 1;
          seen := seen + {i};
        }
      }
    }
  }
}
