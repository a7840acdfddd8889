/** Airspace clearance: a distributed semaphore over three tables.

A transaction is one atomic step.  A run is any interleaving of grants, releases and the
sink's seeding, whose read and write are two separate steps.
 */
module Clearance {

  /** A zone_id and an entity_id, kept apart by type. */
  datatype Zone = Zone(zoneId: string)
  datatype Drone = Drone(entityId: string)

  /** A row of zone_occupancy. */
  datatype Occupancy = Occupancy(name: string, severity: string, capacity: int, remaining: int)

  /** A row of drone_clearance. */
  datatype Holding = Holding(zone: Zone, at: int)

  /** The three tables: slots per zone, who holds them listed by zone, and the same by drone. */
  datatype Ledger = Ledger(
    occupancy: map<Zone, Occupancy>,
    byZone: map<(Zone, Drone), int>,
    byDrone: map<Drone, Holding>)

  const EMPTY := Ledger(map[], map[], map[])

  // ----- the two transactions

  predicate CanGrant(l: Ledger, z: Zone, d: Drone) {
    z in l.occupancy && l.occupancy[z].remaining > 0 && d !in l.byDrone
  }

  function Adjust(occupancy: map<Zone, Occupancy>, z: Zone, delta: int): map<Zone, Occupancy> {
    if z in occupancy
    then occupancy[z := occupancy[z].(remaining := occupancy[z].remaining + delta)]
    else occupancy
  }

  function Grant(l: Ledger, z: Zone, d: Drone, at: int): Ledger {
    if CanGrant(l, z, d)
    then Ledger(Adjust(l.occupancy, z, -1), l.byZone[(z, d) := at], l.byDrone[d := Holding(z, at)])
    else l
  }

  predicate CanRelease(l: Ledger, z: Zone, d: Drone) {
    d in l.byDrone && l.byDrone[d].zone == z
  }

  function Release(l: Ledger, z: Zone, d: Drone): Ledger {
    if CanRelease(l, z, d)
    then Ledger(Adjust(l.occupancy, z, 1), l.byZone - {(z, d)}, l.byDrone - {d})
    else l
  }

  // ----- the invariant

  /** The partition of zone_clearance for one zone. */
  function Holders(l: Ledger, z: Zone): (held: set<Drone>)
    ensures forall d :: d in held <==> (z, d) in l.byZone
  {
    set k | k in l.byZone && k.0 == z :: k.1
  }

  /** The two listings of who holds what are each other's inverse, stamps included. */
  ghost predicate Mirrored(l: Ledger) {
    && (forall z, d :: (z, d) in l.byZone ==>
          d in l.byDrone && l.byDrone[d] == Holding(z, l.byZone[(z, d)]))
    && (forall d :: d in l.byDrone ==> (l.byDrone[d].zone, d) in l.byZone)
  }

  /** Slots left and slots held add up to the capacity. */
  ghost predicate Balanced(l: Ledger, z: Zone)
    requires z in l.occupancy
  {
    var o := l.occupancy[z];
    0 <= o.remaining <= o.capacity && o.capacity == o.remaining + |Holders(l, z)|
  }

  ghost predicate Consistent(l: Ledger) {
    && Mirrored(l)
    && (forall z, d :: (z, d) in l.byZone ==> z in l.occupancy)
    && (forall z :: z in l.occupancy ==> Balanced(l, z))
  }

  lemma GrantHolders(l: Ledger, z: Zone, d: Drone, at: int)
    requires Mirrored(l) && CanGrant(l, z, d)
    ensures d !in Holders(l, z) && Holders(Grant(l, z, d, at), z) == Holders(l, z) + {d}
    ensures forall y :: y != z ==> Holders(Grant(l, z, d, at), y) == Holders(l, y)
  {
  }

  lemma ReleaseHolders(l: Ledger, z: Zone, d: Drone)
    requires Mirrored(l) && CanRelease(l, z, d)
    ensures d in Holders(l, z) && Holders(Release(l, z, d), z) == Holders(l, z) - {d}
    ensures forall y :: y != z ==> Holders(Release(l, z, d), y) == Holders(l, y)
  {
  }

  lemma GrantMirrors(l: Ledger, z: Zone, d: Drone, at: int)
    requires Mirrored(l) && CanGrant(l, z, d)
    ensures Mirrored(Grant(l, z, d, at))
  {
  }

  lemma GrantBalances(l: Ledger, z: Zone, d: Drone, at: int, y: Zone)
    requires Mirrored(l) && CanGrant(l, z, d) && y in l.occupancy && Balanced(l, y)
    ensures y in Grant(l, z, d, at).occupancy && Balanced(Grant(l, z, d, at), y)
  {
    GrantHolders(l, z, d, at);
  }

  lemma GrantKeeps(l: Ledger, z: Zone, d: Drone, at: int)
    requires Consistent(l)
    ensures Consistent(Grant(l, z, d, at))
  {
    if CanGrant(l, z, d) {
      var next := Grant(l, z, d, at);
      GrantMirrors(l, z, d, at);
      assert next.occupancy.Keys == l.occupancy.Keys;
      forall y | y in next.occupancy ensures Balanced(next, y) {
        GrantBalances(l, z, d, at, y);
      }
    }
  }

  lemma ReleaseMirrors(l: Ledger, z: Zone, d: Drone)
    requires Mirrored(l) && CanRelease(l, z, d)
    ensures Mirrored(Release(l, z, d))
  {
  }

  lemma ReleaseBalances(l: Ledger, z: Zone, d: Drone, y: Zone)
    requires Mirrored(l) && CanRelease(l, z, d) && y in l.occupancy && Balanced(l, y)
    ensures y in Release(l, z, d).occupancy && Balanced(Release(l, z, d), y)
  {
    ReleaseHolders(l, z, d);
  }

  lemma ReleaseKeeps(l: Ledger, z: Zone, d: Drone)
    requires Consistent(l)
    ensures Consistent(Release(l, z, d))
  {
    if CanRelease(l, z, d) {
      var next := Release(l, z, d);
      ReleaseMirrors(l, z, d);
      assert next.occupancy.Keys == l.occupancy.Keys;
      forall y | y in next.occupancy ensures Balanced(next, y) {
        ReleaseBalances(l, z, d, y);
      }
    }
  }

  // ----- seeding, and whole runs

  datatype Seed = Seed(zone: Zone, name: string, severity: string, capacity: nat)

  /** The tables, and what each seeder has read as absent and is about to write. */
  datatype System = System(ledger: Ledger, pending: map<nat, Seed>)

  datatype Step =
    | StepGrant(zone: Zone, drone: Drone, at: int)
    | StepRelease(zone: Zone, drone: Drone)
    | SeedRead(seeder: nat, seed: Seed)
    | SeedWrite(seeder: nat)
    | SeedGivesUp(seeder: nat)

  /** The row a seeder inserts: every slot free. */
  function Seeded(l: Ledger, seed: Seed): Ledger {
    l.(occupancy := l.occupancy[seed.zone :=
      Occupancy(seed.name, seed.severity, seed.capacity, seed.capacity)])
  }

  function Next(s: System, step: Step): System {
    match step
    case StepGrant(z, d, at) => s.(ledger := Grant(s.ledger, z, d, at))
    case StepRelease(z, d) => s.(ledger := Release(s.ledger, z, d))
    case SeedRead(id, seed) =>
      if id in s.pending || seed.zone in s.ledger.occupancy then s
      else s.(pending := s.pending[id := seed])
    case SeedWrite(id) =>
      if id !in s.pending then s
      else System(Seeded(s.ledger, s.pending[id]), s.pending - {id})
    case SeedGivesUp(id) => s.(pending := s.pending - {id})
  }

  /** The state after a run, from empty tables. */
  function Run(steps: seq<Step>): System {
    if steps == [] then System(EMPTY, map[])
    else Next(Run(steps[..|steps| - 1]), steps[|steps| - 1])
  }

  /** Only one process seeds, which is what the source relies on. */
  predicate OneSeeder(steps: seq<Step>) {
    forall step :: step in steps ==>
      step.StepGrant? || step.StepRelease? || step.seeder == 0
  }

  /** What every step keeps: the tables agree, and no seeder holds a stale absence. */
  ghost predicate Inv(s: System) {
    && Consistent(s.ledger)
    && (forall id :: id in s.pending ==> id == 0 && s.pending[id].zone !in s.ledger.occupancy)
  }

  lemma SeededKeeps(l: Ledger, seed: Seed)
    requires Consistent(l) && seed.zone !in l.occupancy
    ensures Consistent(Seeded(l, seed))
  {
    var next := Seeded(l, seed);
    assert Holders(l, seed.zone) == {};
    forall z | z in next.occupancy ensures Balanced(next, z) {
      assert Holders(next, z) == Holders(l, z);
      assert z != seed.zone ==> Balanced(l, z);
    }
  }

  lemma NextKeeps(s: System, step: Step)
    requires Inv(s) && OneSeeder([step])
    ensures Inv(Next(s, step))
  {
    assert step in [step];
    match step
    case StepGrant(z, d, at) => GrantKeeps(s.ledger, z, d, at);
    case StepRelease(z, d) => ReleaseKeeps(s.ledger, z, d);
    case SeedWrite(id) => if id in s.pending { SeededKeeps(s.ledger, s.pending[id]); }
    case _ =>
  }

  /** Every state of every run with one seeder is consistent. */
  lemma {:induction false} RunsAreConsistent(steps: seq<Step>)
    requires OneSeeder(steps)
    ensures Inv(Run(steps))
  {
    if steps != [] {
      var last := steps[|steps| - 1];
      RunsAreConsistent(steps[..|steps| - 1]);
      assert OneSeeder([last]);
      NextKeeps(Run(steps[..|steps| - 1]), last);
    }
  }

  lemma RunThen(steps: seq<Step>, step: Step)
    ensures Run(steps + [step]) == Next(Run(steps), step)
  {
    assert (steps + [step])[..|steps|] == steps;
  }

  // ----- counting grants and releases

  /** The ledger once so many steps have been taken. */
  function At(steps: seq<Step>, i: nat): Ledger {
    Run(if i <= |steps| then steps[..i] else steps).ledger
  }

  function Count(p: nat -> bool, i: nat, j: nat): nat {
    if j <= i then 0 else Count(p, i, j - 1) + if p(j - 1) then 1 else 0
  }

  /** Step `k` is a grant of the zone that fired. */
  predicate GrantOf(steps: seq<Step>, z: Zone, k: nat) {
    k < |steps| && steps[k].StepGrant? && steps[k].zone == z && CanGrant(At(steps, k), z, steps[k].drone)
  }

  predicate ReleaseOf(steps: seq<Step>, z: Zone, k: nat) {
    k < |steps| && steps[k].StepRelease? && steps[k].zone == z && CanRelease(At(steps, k), z, steps[k].drone)
  }

  /** How many grants and releases of a zone fired between two moments. */
  function Grants(steps: seq<Step>, z: Zone, i: nat, j: nat): nat { Count((k: nat) => GrantOf(steps, z, k), i, j) }

  function Releasings(steps: seq<Step>, z: Zone, i: nat, j: nat): nat {
    Count((k: nat) => ReleaseOf(steps, z, k), i, j)
  }

  /** The same for one drone's clearance. */
  function GrantsTo(steps: seq<Step>, z: Zone, d: Drone, i: nat, j: nat): nat {
    Count((k: nat) => GrantOf(steps, z, k) && steps[k].drone == d, i, j)
  }

  function ReleasingsBy(steps: seq<Step>, z: Zone, d: Drone, i: nat, j: nat): nat {
    Count((k: nat) => ReleaseOf(steps, z, k) && steps[k].drone == d, i, j)
  }

  function Bit(b: bool): int { if b then 1 else 0 }

  /** One step moves a zone's holders by one grant or one release. */
  lemma StepMovesHolders(s: System, step: Step, z: Zone)
    requires Mirrored(s.ledger)
    ensures |Holders(Next(s, step).ledger, z)| == |Holders(s.ledger, z)|
              + Bit(step.StepGrant? && step.zone == z && CanGrant(s.ledger, z, step.drone))
              - Bit(step.StepRelease? && step.zone == z && CanRelease(s.ledger, z, step.drone))
  {
    var l := s.ledger;
    match step
    case StepGrant(y, d, at) =>
      if CanGrant(l, y, d) {
        GrantHolders(l, y, d, at);
      }
    case StepRelease(y, d) =>
      if CanRelease(l, y, d) {
        ReleaseHolders(l, y, d);
      }
    case _ =>
      assert Holders(Next(s, step).ledger, z) == Holders(l, z);
  }

  lemma StepMovesClearance(s: System, step: Step, z: Zone, d: Drone)
    requires Mirrored(s.ledger)
    ensures Bit((z, d) in Next(s, step).ledger.byZone) == Bit((z, d) in s.ledger.byZone)
              + Bit(step.StepGrant? && step.zone == z && step.drone == d && CanGrant(s.ledger, z, d))
              - Bit(step.StepRelease? && step.zone == z && step.drone == d && CanRelease(s.ledger, z, d))
  {
  }

  lemma NextMirrors(s: System, step: Step)
    requires Mirrored(s.ledger)
    ensures Mirrored(Next(s, step).ledger)
  {
    match step
    case StepGrant(z, d, at) => if CanGrant(s.ledger, z, d) { GrantMirrors(s.ledger, z, d, at); }
    case StepRelease(z, d) => if CanRelease(s.ledger, z, d) { ReleaseMirrors(s.ledger, z, d); }
    case _ =>
  }

  /** However many seed, the two listings stay each other's inverse. */
  lemma {:induction false} RunsAreMirrored(steps: seq<Step>)
    ensures Mirrored(Run(steps).ledger)
  {
    if steps != [] {
      RunsAreMirrored(steps[..|steps| - 1]);
      NextMirrors(Run(steps[..|steps| - 1]), steps[|steps| - 1]);
    }
  }

  lemma AtNext(steps: seq<Step>, i: nat)
    requires i < |steps|
    ensures At(steps, i + 1) == Next(Run(steps[..i]), steps[i]).ledger && At(steps, i) == Run(steps[..i]).ledger
  {
    assert steps[..i + 1][..i] == steps[..i];
  }

  /** Between two moments a zone's holders change by the grants less the releases. */
  lemma {:induction false} HoldersMove(steps: seq<Step>, z: Zone, i: nat, j: nat)
    requires i <= j
    ensures |Holders(At(steps, j), z)| ==
            |Holders(At(steps, i), z)| + Grants(steps, z, i, j) - Releasings(steps, z, i, j)
    decreases j
  {
    if i < j {
      HoldersMove(steps, z, i, j - 1);
      if j <= |steps| {
        RunsAreMirrored(steps[..j - 1]);
        AtNext(steps, j - 1);
        StepMovesHolders(Run(steps[..j - 1]), steps[j - 1], z);
      } else {
        assert At(steps, j) == At(steps, j - 1) by {
          assert steps[..|steps|] == steps;
        }
      }
    }
  }

  lemma {:induction false} ClearanceMoves(steps: seq<Step>, z: Zone, d: Drone, i: nat, j: nat)
    requires i <= j
    ensures Bit((z, d) in At(steps, j).byZone) ==
            Bit((z, d) in At(steps, i).byZone) + GrantsTo(steps, z, d, i, j) - ReleasingsBy(steps, z, d, i, j)
    decreases j
  {
    if i < j {
      ClearanceMoves(steps, z, d, i, j - 1);
      if j <= |steps| {
        RunsAreMirrored(steps[..j - 1]);
        AtNext(steps, j - 1);
        StepMovesClearance(Run(steps[..j - 1]), steps[j - 1], z, d);
      } else {
        assert At(steps, j) == At(steps, j - 1) by {
          assert steps[..|steps|] == steps;
        }
      }
    }
  }

  // ----- more than one seeder

  /** Writing a zone's row keeps the ledger consistent exactly when nobody holds the zone. */
  lemma SeededKeepsIff(l: Ledger, seed: Seed)
    requires Consistent(l)
    ensures Consistent(Seeded(l, seed)) <==> Holders(l, seed.zone) == {}
  {
    var next, z := Seeded(l, seed), seed.zone;
    forall y ensures Holders(next, y) == Holders(l, y) {
    }
    if Holders(l, z) == {} {
      forall y | y in next.occupancy ensures Balanced(next, y) {
        assert y != z ==> Balanced(l, y);
      }
    }
    assert Consistent(next) ==> Balanced(next, z);
  }

  /** The ledger is consistent throughout a run. */
  ghost predicate AlwaysConsistent(steps: seq<Step>) {
    forall i :: 0 <= i <= |steps| ==> Consistent(At(steps, i))
  }

  /** The step writes the row of a zone a seeder has read as absent. */
  predicate Writes(steps: seq<Step>, i: nat, z: Zone) {
    && i < |steps| && steps[i].SeedWrite?
    && var pending := Run(steps[..i]).pending;
       steps[i].seeder in pending && pending[steps[i].seeder].zone == z
  }

  /** Every write finds its zone with as many releases as grants behind it. */
  ghost predicate WritesUnheld(steps: seq<Step>) {
    forall i: nat, z :: Writes(steps, i, z) ==> Grants(steps, z, 0, i) == Releasings(steps, z, 0, i)
  }

  lemma HeldCount(steps: seq<Step>, z: Zone, i: nat)
    requires i <= |steps|
    ensures Holders(At(steps, i), z) == {} <==> Grants(steps, z, 0, i) == Releasings(steps, z, 0, i)
  {
    HoldersMove(steps, z, 0, i);
    assert Holders(At(steps, 0), z) == {};
  }

  lemma StepConsistentIff(steps: seq<Step>, i: nat)
    requires i < |steps| && Consistent(At(steps, i))
    ensures Consistent(At(steps, i + 1)) <==>
            forall z :: Writes(steps, i, z) ==> Grants(steps, z, 0, i) == Releasings(steps, z, 0, i)
  {
    var s, step := Run(steps[..i]), steps[i];
    AtNext(steps, i);
    match step
    case StepGrant(z, d, at) => GrantKeeps(s.ledger, z, d, at);
    case StepRelease(z, d) => ReleaseKeeps(s.ledger, z, d);
    case SeedWrite(id) =>
      if id in s.pending {
        SeededKeepsIff(s.ledger, s.pending[id]);
        HeldCount(steps, s.pending[id].zone, i);
        assert Writes(steps, i, s.pending[id].zone);
      }
    case _ =>
  }

  /** With any number of seeders, a run keeps the ledger consistent throughout exactly when no
      seeder writes a zone's row while drones hold clearances for it. */
  lemma AlwaysConsistentIff(steps: seq<Step>)
    ensures AlwaysConsistent(steps) <==> WritesUnheld(steps)
  {
    if AlwaysConsistent(steps) {
      forall i: nat, z | Writes(steps, i, z) ensures Grants(steps, z, 0, i) == Releasings(steps, z, 0, i) {
        assert Consistent(At(steps, i)) && Consistent(At(steps, i + 1));
        StepConsistentIff(steps, i);
      }
    }
    if WritesUnheld(steps) {
      forall i | 0 <= i <= |steps| ensures Consistent(At(steps, i)) {
        UnheldConsistent(steps, i);
      }
    }
  }

  lemma {:induction false} UnheldConsistent(steps: seq<Step>, i: nat)
    requires WritesUnheld(steps) && i <= |steps|
    ensures Consistent(At(steps, i))
  {
    if i > 0 {
      UnheldConsistent(steps, i - 1);
      StepConsistentIff(steps, i - 1);
    } else {
      assert At(steps, 0) == EMPTY;
    }
  }

  /** Two seeders have read a zone of one slot as absent, one has written it, and a drone has
      been granted the slot. */
  const RACING: seq<Step> := [
    SeedRead(0, Seed(Zone("z"), "", "", 1)), SeedRead(1, Seed(Zone("z"), "", "", 1)), SeedWrite(0),
    StepGrant(Zone("z"), Drone("d"), 0)]

  lemma RacingReaches()
    ensures Run(RACING) ==
            System(Ledger(map[Zone("z") := Occupancy("", "", 1, 0)], map[(Zone("z"), Drone("d")) := 0],
                          map[Drone("d") := Holding(Zone("z"), 0)]),
                   map[1 := Seed(Zone("z"), "", "", 1)])
  {
    var seed := Seed(Zone("z"), "", "", 1);
    var r0, r1, w0 := SeedRead(0, seed), SeedRead(1, seed), SeedWrite(0);
    RunThen([], r0);
    assert [] + [r0] == [r0] && [r0] + [r1] == [r0, r1] && [r0, r1] + [w0] == [r0, r1, w0];
    RunThen([r0], r1);
    assert Run([r0, r1]) == System(EMPTY, map[0 := seed, 1 := seed]);
    RunThen([r0, r1], w0);
    assert Run([r0, r1, w0]) ==
           System(Ledger(map[Zone("z") := Occupancy("", "", 1, 1)], map[], map[]), map[1 := seed]);
    RunThen([r0, r1, w0], RACING[3]);
    assert [r0, r1, w0] + [RACING[3]] == RACING;
  }

  /** With a second seeder the invariant fails: its write hands the slot back, and a second
      drone is granted a zone of one. */
  lemma TwoSeedersOverbook()
    ensures
      var l := Run(RACING + [SeedWrite(1)] + [StepGrant(Zone("z"), Drone("e"), 0)]).ledger;
      && Zone("z") in l.occupancy && l.occupancy[Zone("z")].capacity == 1
      && Holders(l, Zone("z")) == {Drone("d"), Drone("e")} && |Holders(l, Zone("z"))| == 2
  {
    RacingReaches();
    RunThen(RACING, SeedWrite(1));
    RunThen(RACING + [SeedWrite(1)], StepGrant(Zone("z"), Drone("e"), 0));
    var before := Run(RACING + [SeedWrite(1)]).ledger;
    assert before == Ledger(map[Zone("z") := Occupancy("", "", 1, 1)], map[(Zone("z"), Drone("d")) := 0],
                            map[Drone("d") := Holding(Zone("z"), 0)]);
    assert "d"[0] != "e"[0];
    var l := Grant(before, Zone("z"), Drone("e"), 0);
    assert l.byZone == map[(Zone("z"), Drone("d")) := 0, (Zone("z"), Drone("e")) := 0];
    assert |{Drone("d"), Drone("e")}| == 2;
  }
}
