/** The clearance audit: a read of every zone's slots, then of each zone's holders, then of each
holder's own row.

They are separate reads and the state route takes no lock, so grants and releases fall between
them.
 */
module ClearanceAudit {
  import opened Clearance

  // ----- one ledger

  /** The drones a look at one ledger reports: listed under a zone it has, without the mirror. */
  ghost predicate Reported(l: Ledger, d: Drone) {
    exists z :: z in l.occupancy && (z, d) in l.byZone && !CanRelease(l, z, d)
  }

  /** What a clean audit leaves unsaid: a drone's row without a zone's, a holder under a
      zone with no row, a different stamp, or a negative count.  With those four added it is
      exactly the invariant. */
  lemma CleanAuditIsConsistent(l: Ledger)
    ensures Consistent(l) <==>
      && (forall d :: !Reported(l, d))
      && (forall z :: z in l.occupancy ==>
            l.occupancy[z].capacity == l.occupancy[z].remaining + |Holders(l, z)|)
      && (forall d :: d in l.byDrone ==> (l.byDrone[d].zone, d) in l.byZone)
      && (forall z, d :: (z, d) in l.byZone ==> z in l.occupancy)
      && (forall z, d :: (z, d) in l.byZone && CanRelease(l, z, d) ==>
            l.byZone[(z, d)] == l.byDrone[d].at)
      && (forall z :: z in l.occupancy ==> l.occupancy[z].remaining >= 0)
  {
    if Consistent(l) {
      forall z | z in l.occupancy
        ensures l.occupancy[z].capacity == l.occupancy[z].remaining + |Holders(l, z)|
        ensures l.occupancy[z].remaining >= 0
      {
        assert Balanced(l, z);
      }
    } else if (forall d :: !Reported(l, d)) && forall z, d :: (z, d) in l.byZone ==> z in l.occupancy {
      forall z, d | (z, d) in l.byZone ensures CanRelease(l, z, d) {
        assert d in Holders(l, z);
        assert CanRelease(l, z, d) || Reported(l, d);
      }
    }
  }

  /** A ledger the audit passes although a drone is barred for ever by a clearance that no
      zone lists. */
  lemma AuditBlindSpot()
    ensures
      var l := Ledger(map[Zone("z") := Occupancy("", "", 1, 1)], map[], map[Drone("d") := Holding(Zone("z"), 0)]);
      && (forall d :: !Reported(l, d))
      && l.occupancy[Zone("z")].capacity == l.occupancy[Zone("z")].remaining + |Holders(l, Zone("z"))|
      && !Consistent(l)
  {
    var l := Ledger(map[Zone("z") := Occupancy("", "", 1, 1)], map[], map[Drone("d") := Holding(Zone("z"), 0)]);
    assert Drone("d") in l.byDrone && (Zone("z"), Drone("d")) !in l.byZone;
  }

  // ----- the audit's reads

  datatype ZoneView = ZoneView(capacity: int, remaining: int, holders: set<Drone>, consistent: bool)

  /** When a zone's partition was read, and each of its holders' own rows. */
  datatype Reading = Reading(at: nat, mirrors: map<Drone, nat>)

  /** When the slots were read, and each zone in turn. */
  datatype Trace = Trace(slots: nat, zones: map<Zone, Reading>)

  /** Reads are made one after another. */
  ghost predicate Forward(when: nat -> nat) { forall i, j :: i <= j ==> when(i) <= when(j) }

  /** One zone's reads: its holders after the slots, each holder's row after that. */
  ghost predicate InOrder(slots: nat, r: Reading, shown: ZoneView) {
    && slots <= r.at
    && r.mirrors.Keys == shown.holders
    && forall d :: d in r.mirrors ==> r.at <= r.mirrors[d]
  }

  /** One zone as the audit shows it: its slots and its holders from two moments. */
  function View(slots: Ledger, partition: Ledger, z: Zone): ZoneView
    requires z in slots.occupancy
  {
    var o, holders := slots.occupancy[z], Holders(partition, z);
    ZoneView(o.capacity, o.remaining, holders, o.capacity == o.remaining + |holders|)
  }

  /** What is shown of a zone: its slots as the first read had them, its holders as the second
      had them, and whether the numbers shown add up. */
  ghost predicate IsShown(slots: Ledger, partition: Ledger, z: Zone, shown: ZoneView)
    requires z in slots.occupancy
  {
    && shown.capacity == slots.occupancy[z].capacity && shown.remaining == slots.occupancy[z].remaining
    && (forall d :: d in shown.holders <==> (z, d) in partition.byZone)
    && (shown.consistent <==> shown.remaining + |shown.holders| == shown.capacity)
  }

  /** Some zone listed the drone and its own row, when read, did not name that zone. */
  ghost predicate Misses(view: nat -> Ledger, t: Trace, d: Drone) {
    exists z :: z in t.zones && d in t.zones[z].mirrors && !CanRelease(view(t.zones[z].mirrors[d]), z, d)
  }

  /** The point reads for one zone's holders, starting with read number `k`. */
  method ReadMirrors(view: nat -> Ledger, when: nat -> nat, k: nat, z: Zone, holders: set<Drone>)
    returns (found: set<Drone>, next: nat, at: map<Drone, nat>)
    requires Forward(when)
    ensures at.Keys == holders && next >= k
    ensures forall d :: d in at ==> when(k) <= at[d]
    ensures forall d :: d in found <==> d in holders && !CanRelease(view(at[d]), z, d)
  {
    found, next, at := {}, k, map[];
    var rest := holders;
    while rest != {}
      invariant rest <= holders && at.Keys == holders - rest && next >= k
      invariant forall d :: d in at ==> when(k) <= at[d]
      invariant forall d :: d in found <==> d in at && !CanRelease(view(at[d]), z, d)
    {
      var d :| d in rest;
      if !CanRelease(view(when(next)), z, d) {
        found := found + {d};
      }
      at := at[d := when(next)];
      rest, next := rest - {d}, next + 1;
    }
  }

  /** What an audit with these reads shows so far. */
  ghost predicate Shows(view: nat -> Ledger, t: Trace, zones: map<Zone, ZoneView>, mismatched: set<Drone>) {
    && t.zones.Keys == zones.Keys <= view(t.slots).occupancy.Keys
    && (forall z :: z in zones ==>
          IsShown(view(t.slots), view(t.zones[z].at), z, zones[z]) && InOrder(t.slots, t.zones[z], zones[z]))
    && (forall d :: d in mismatched <==> Misses(view, t, d))
  }

  /** The audit over tables that change while it reads: `view` is the ledger at each moment,
      `when` the moment of each read. */
  method Audit(view: nat -> Ledger, when: nat -> nat)
    returns (zones: map<Zone, ZoneView>, mismatched: set<Drone>, t: Trace)
    requires Forward(when)
    ensures t.slots == when(0) && Shows(view, t, zones, mismatched)
    ensures zones.Keys == view(t.slots).occupancy.Keys
  {
    zones, mismatched, t := map[], {}, Trace(when(0), map[]);
    var slots := view(when(0));
    var todo, k: nat := slots.occupancy.Keys, 1;
    while todo != {}
      invariant t.slots == when(0) && Shows(view, t, zones, mismatched)
      invariant todo <= slots.occupancy.Keys && zones.Keys == slots.occupancy.Keys - todo
    {
      var z :| z in todo;
      var shown := View(slots, view(when(k)), z);
      var read := when(k);
      assert when(0) <= read <= when(k + 1);
      var found, next, at := ReadMirrors(view, when, k + 1, z, shown.holders);
      MoreMisses(view, t, z, Reading(read, at), mismatched, found);
      t, k := t.(zones := t.zones[z := Reading(read, at)]), next;
      zones, mismatched, todo := zones[z := shown], mismatched + found, todo - {z};
    }
  }

  lemma MoreMisses(view: nat -> Ledger, t: Trace, z: Zone, r: Reading, mismatched: set<Drone>, found: set<Drone>)
    requires z !in t.zones
    requires forall d :: d in mismatched <==> Misses(view, t, d)
    requires forall d :: d in found <==> d in r.mirrors && !CanRelease(view(r.mirrors[d]), z, d)
    ensures forall d :: d in mismatched + found <==> Misses(view, t.(zones := t.zones[z := r]), d)
  {
    var more := t.(zones := t.zones[z := r]);
    forall d ensures d in mismatched + found <==> Misses(view, more, d) {
      if d in mismatched {
        var y :| y in t.zones && d in t.zones[y].mirrors && !CanRelease(view(t.zones[y].mirrors[d]), y, d);
        assert more.zones[y] == t.zones[y];
      }
      if d in found {
        assert more.zones[z] == r;
      }
    }
  }

  // ----- over a run

  lemma OneSeederPrefix(steps: seq<Step>, i: nat)
    requires OneSeeder(steps)
    ensures Consistent(At(steps, i))
  {
    var n := if i <= |steps| then i else |steps|;
    assert forall step :: step in steps[..n] ==> step in steps;
    RunsAreConsistent(steps[..n]);
    assert n == |steps| ==> steps[..n] == steps;
  }

  /** A zone shown from two moments adds up exactly when as many grants of it as releases fired
      between them. */
  lemma FlagIff(steps: seq<Step>, z: Zone, i: nat, j: nat)
    requires OneSeeder(steps) && i <= j && z in At(steps, i).occupancy
    ensures View(At(steps, i), At(steps, j), z).consistent <==> Grants(steps, z, i, j) == Releasings(steps, z, i, j)
  {
    OneSeederPrefix(steps, i);
    assert Balanced(At(steps, i), z);
    HoldersMove(steps, z, i, j);
  }

  /** A drone listed at one moment is reported at a later one exactly when it gave the clearance
      back in between more often than it was granted it again. */
  lemma MirrorIff(steps: seq<Step>, z: Zone, d: Drone, i: nat, j: nat)
    requires OneSeeder(steps) && i <= j && d in Holders(At(steps, i), z)
    ensures !CanRelease(At(steps, j), z, d) <==> ReleasingsBy(steps, z, d, i, j) > GrantsTo(steps, z, d, i, j)
  {
    OneSeederPrefix(steps, j);
    ClearanceMoves(steps, z, d, i, j);
    assert (z, d) in At(steps, i).byZone;
  }

  /** No grant and no release between two moments: what the demo's lock gives its holder. */
  predicate Quiet(steps: seq<Step>, i: nat) {
    forall k :: i <= k < |steps| ==> !steps[k].StepGrant? && !steps[k].StepRelease?
  }

  lemma {:induction false} CountNone(p: nat -> bool, i: nat, j: nat)
    requires forall k :: i <= k ==> !p(k)
    ensures Count(p, i, j) == 0
  {
    if i < j {
      CountNone(p, i, j - 1);
    }
  }

  lemma QuietCounts(steps: seq<Step>, z: Zone, d: Drone, from: nat, i: nat, j: nat)
    requires Quiet(steps, from) && from <= i
    ensures Grants(steps, z, i, j) == 0 && Releasings(steps, z, i, j) == 0
    ensures ReleasingsBy(steps, z, d, i, j) == 0
  {
    CountNone((k: nat) => GrantOf(steps, z, k), i, j);
    CountNone((k: nat) => ReleaseOf(steps, z, k), i, j);
    CountNone((k: nat) => ReleaseOf(steps, z, k) && steps[k].drone == d, i, j);
  }

  function Moments(steps: seq<Step>): nat -> Ledger { (i: nat) => At(steps, i) }

  /** Between the reads of a zone's holders and of this one's row, the drone gave the clearance
      back more often than it was granted it again. */
  predicate Left(steps: seq<Step>, z: Zone, d: Drone, r: Reading)
    requires d in r.mirrors
  {
    ReleasingsBy(steps, z, d, r.at, r.mirrors[d]) > GrantsTo(steps, z, d, r.at, r.mirrors[d])
  }

  ghost predicate LeftSome(steps: seq<Step>, t: Trace, d: Drone) {
    exists z :: z in t.zones && d in t.zones[z].mirrors && Left(steps, z, d, t.zones[z])
  }

  lemma IsShownIsView(slots: Ledger, partition: Ledger, z: Zone, shown: ZoneView)
    requires z in slots.occupancy
    ensures IsShown(slots, partition, z, shown) <==> shown == View(slots, partition, z)
  {
    assert forall d :: d in Holders(partition, z) <==> (z, d) in partition.byZone;
    assert IsShown(slots, partition, z, shown) ==> shown.holders == Holders(partition, z);
  }

  lemma ShownFlag(steps: seq<Step>, slots: nat, at: nat, z: Zone)
    requires OneSeeder(steps) && slots <= at && z in At(steps, slots).occupancy
    ensures
      var shown := View(At(steps, slots), At(steps, at), z);
      && (shown.consistent <==> Grants(steps, z, slots, at) == Releasings(steps, z, slots, at))
      && (Quiet(steps, slots) ==> shown.consistent)
  {
    FlagIff(steps, z, slots, at);
    if Quiet(steps, slots) {
      QuietCounts(steps, z, Drone(""), slots, slots, at);
    }
  }

  lemma ShownMirror(steps: seq<Step>, slots: nat, r: Reading, z: Zone, d: Drone)
    requires OneSeeder(steps) && d in r.mirrors && slots <= r.at <= r.mirrors[d]
    requires d in Holders(At(steps, r.at), z)
    ensures !CanRelease(At(steps, r.mirrors[d]), z, d) <==> Left(steps, z, d, r)
    ensures Quiet(steps, slots) ==> !Left(steps, z, d, r)
  {
    MirrorIff(steps, z, d, r.at, r.mirrors[d]);
    if Quiet(steps, slots) {
      QuietCounts(steps, z, d, slots, r.at, r.mirrors[d]);
    }
  }

  lemma ShownMisses(steps: seq<Step>, t: Trace, zones: map<Zone, ZoneView>, mismatched: set<Drone>, d: Drone)
    requires OneSeeder(steps) && Shows(Moments(steps), t, zones, mismatched)
    ensures d in mismatched <==> LeftSome(steps, t, d)
    ensures Quiet(steps, t.slots) ==> d !in mismatched
  {
    forall z | z in t.zones && d in t.zones[z].mirrors
      ensures !CanRelease(Moments(steps)(t.zones[z].mirrors[d]), z, d) <==> Left(steps, z, d, t.zones[z])
      ensures Quiet(steps, t.slots) ==> !Left(steps, z, d, t.zones[z])
    {
      assert InOrder(t.slots, t.zones[z], zones[z]);
      ShownMirror(steps, t.slots, t.zones[z], z, d);
    }
    assert Misses(Moments(steps), t, d) <==> LeftSome(steps, t, d);
  }

  /** The audit during a run with one seeder.  A zone's flag is true exactly when as many grants
      of it as releases fired between the reads of its slots and of its holders; a drone is
      reported exactly when it gave a clearance back, and was not granted it again, between the
      read that listed it and the read of its own row.  Under the lock nothing is reported. */
  method AuditDuring(steps: seq<Step>, when: nat -> nat)
    returns (zones: map<Zone, ZoneView>, mismatched: set<Drone>, t: Trace)
    requires OneSeeder(steps) && Forward(when)
    ensures t.slots == when(0) && Shows(Moments(steps), t, zones, mismatched)
    ensures zones.Keys == At(steps, t.slots).occupancy.Keys
    ensures forall z :: z in zones ==>
              (zones[z].consistent <==>
               Grants(steps, z, t.slots, t.zones[z].at) == Releasings(steps, z, t.slots, t.zones[z].at))
    ensures forall d :: d in mismatched <==> LeftSome(steps, t, d)
    ensures Quiet(steps, when(0)) ==> mismatched == {} && forall z :: z in zones ==> zones[z].consistent
    // A zone shows a free slot exactly when a drone that holds nothing would be granted it.
    ensures forall z, d :: z in zones && d !in At(steps, t.slots).byDrone ==>
              (zones[z].remaining > 0 <==> CanGrant(At(steps, t.slots), z, d))
    // Under the lock a zone shows its capacity taken up by the holders shown and the slots left.
    ensures Quiet(steps, when(0)) ==> forall z :: z in zones ==>
              zones[z].capacity == zones[z].remaining + |zones[z].holders|
  {
    zones, mismatched, t := Audit(Moments(steps), when);
    forall z | z in zones
      ensures zones[z].consistent <==>
              Grants(steps, z, t.slots, t.zones[z].at) == Releasings(steps, z, t.slots, t.zones[z].at)
      ensures Quiet(steps, when(0)) ==> zones[z].consistent
    {
      assert InOrder(t.slots, t.zones[z], zones[z]);
      IsShownIsView(At(steps, t.slots), At(steps, t.zones[z].at), z, zones[z]);
      ShownFlag(steps, t.slots, t.zones[z].at, z);
    }
    forall d
      ensures d in mismatched <==> LeftSome(steps, t, d)
      ensures Quiet(steps, when(0)) ==> d !in mismatched
    {
      ShownMisses(steps, t, zones, mismatched, d);
    }
  }

  // ----- a run it catches in between

  const SEED := Seed(Zone("z"), "", "", 1)

  /** A zone of one slot is seeded, a drone is granted it and gives it back. */
  const VISIT: seq<Step> :=
    [SeedRead(0, SEED), SeedWrite(0), StepGrant(Zone("z"), Drone("d"), 0), StepRelease(Zone("z"), Drone("d"))]

  lemma VisitLedgers()
    ensures
      var seeded := Ledger(map[Zone("z") := Occupancy("", "", 1, 1)], map[], map[]);
      && At(VISIT, 2) == At(VISIT, 4) == seeded
      && At(VISIT, 3) == Grant(seeded, Zone("z"), Drone("d"), 0)
  {
    var seeded := Ledger(map[Zone("z") := Occupancy("", "", 1, 1)], map[], map[]);
    assert VISIT[..0] == [] && Run(VISIT[..0]) == System(EMPTY, map[]);
    assert VISIT[..1][..0] == VISIT[..0] && VISIT[..2][..1] == VISIT[..1];
    assert Run(VISIT[..1]) == System(EMPTY, map[0 := SEED]);
    assert Run(VISIT[..2]) == System(seeded, map[]);
    AtNext(VISIT, 2);
    AtNext(VISIT, 3);
  }

  /** An audit that reads the slots before the grant, the holders after it and the holder's row
      after the release shows a zone that does not add up and misses the drone's row, though the
      ledger is consistent at every moment. */
  lemma AuditTorn()
    ensures Zone("z") in At(VISIT, 2).occupancy && !View(At(VISIT, 2), At(VISIT, 3), Zone("z")).consistent
    ensures Drone("d") in Holders(At(VISIT, 3), Zone("z"))
    ensures Misses(Moments(VISIT), Trace(2, map[Zone("z") := Reading(3, map[Drone("d") := 4])]), Drone("d"))
    ensures forall i :: Consistent(At(VISIT, i))
  {
    var z, d, l := Zone("z"), Drone("d"), At(VISIT, 2);
    VisitLedgers();
    assert Holders(l, z) == {} && Mirrored(l);
    GrantHolders(l, z, d, 0);
    assert Holders(At(VISIT, 3), z) == {d};
    TornMirror();
    forall i ensures Consistent(At(VISIT, i)) {
      OneSeederPrefix(VISIT, i);
    }
  }

  lemma TornMirror()
    ensures Misses(Moments(VISIT), Trace(2, map[Zone("z") := Reading(3, map[Drone("d") := 4])]), Drone("d"))
  {
    var t := Trace(2, map[Zone("z") := Reading(3, map[Drone("d") := 4])]);
    VisitLedgers();
    assert t.zones[Zone("z")].mirrors[Drone("d")] == 4 && !CanRelease(Moments(VISIT)(4), Zone("z"), Drone("d"));
  }
}
