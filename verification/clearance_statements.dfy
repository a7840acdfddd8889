/** The clearance transactions as they are written, and what their text does.

The two statements are executed with their parameters bound by position, on the tables a
ledger encodes to.  The outcome is the guarded update of the ledger, and the reason the
client reads out of the projection is empty exactly when the IF fired.
 */
module ClearanceStatements {
  import opened Accord
  import opened Collections
  import opened Options
  import C = Clearance

  // ----- the ledger as tables

  function ZoneText(z: C.Zone): Value { Text(z.zoneId) }

  function DroneText(d: C.Drone): Value { Text(d.entityId) }

  function OccupancyRow(z: C.Zone, o: C.Occupancy): Row {
    map[ZoneId := ZoneText(z), ZoneName := Text(o.name), Severity := Text(o.severity),
        Capacity := Number(o.capacity), Remaining := Number(o.remaining)]
  }

  function ClearanceRow(z: C.Zone, d: C.Drone, at: int): Row {
    map[ZoneId := ZoneText(z), EntityId := DroneText(d), GrantedAt := Moment(at)]
  }

  type Occupied = map<C.Zone, C.Occupancy>
  type Listed = map<(C.Zone, C.Drone), int>
  type HeldBy = map<C.Drone, C.Holding>

  function OccRead(m: Occupied, z: C.Zone): Option<Row> {
    if z in m then Some(OccupancyRow(z, m[z])) else None
  }

  function ListedRead(m: Listed, z: C.Zone, d: C.Drone): Option<Row> {
    if (z, d) in m then Some(ClearanceRow(z, d, m[(z, d)])) else None
  }

  function HeldRead(m: HeldBy, d: C.Drone): Option<Row> {
    if d in m then Some(ClearanceRow(m[d].zone, d, m[d].at)) else None
  }

  ghost predicate OccupancyStored(store: Store, m: Occupied) {
    forall z :: Fetch(store, ZoneOccupancy, One(ZoneText(z))) == OccRead(m, z)
  }

  ghost predicate ZonesStored(store: Store, m: Listed) {
    forall z, d :: Fetch(store, ZoneClearance, Two(ZoneText(z), DroneText(d))) == ListedRead(m, z, d)
  }

  ghost predicate DronesStored(store: Store, m: HeldBy) {
    forall d :: Fetch(store, DroneClearance, One(DroneText(d))) == HeldRead(m, d)
  }

  /** The store holds the ledger, row for row. */
  ghost predicate Stores(store: Store, l: C.Ledger) {
    OccupancyStored(store, l.occupancy) && ZonesStored(store, l.byZone) && DronesStored(store, l.byDrone)
  }

  // ----- the statements

  const LET_OCC := Let(Occ, ZoneOccupancy, [ZoneId])
  const LET_HELD := Let(Held, DroneClearance, [EntityId])
  const TAKE_SLOT := AddTo(ZoneOccupancy, Remaining, -1, [ZoneId])
  const FREE_SLOT := AddTo(ZoneOccupancy, Remaining, 1, [ZoneId])
  const LIST_BY_ZONE := Insert(ZoneClearance, [ZoneId, EntityId, GrantedAt])
  const LIST_BY_DRONE := Insert(DroneClearance, [EntityId, ZoneId, GrantedAt])
  const UNLIST_BY_ZONE := Delete(ZoneClearance, [ZoneId, EntityId])
  const UNLIST_BY_DRONE := Delete(DroneClearance, [EntityId])

  const SLOTS_KNOWN := IsNotNull(Field(Occ, Remaining))
  const SLOTS_LEFT := Above(Field(Occ, Remaining), 0)
  const HOLDS_NOTHING := IsNull(Field(Held, ZoneId))
  const HOLDS_THIS := EqualsBound(Field(Held, ZoneId))

  const GRANT := Transaction(
    [LET_OCC, LET_HELD],
    [Field(Occ, Remaining), Field(Occ, Capacity), Field(Held, ZoneId)],
    [SLOTS_KNOWN, SLOTS_LEFT, HOLDS_NOTHING],
    [TAKE_SLOT, LIST_BY_ZONE, LIST_BY_DRONE])

  const RELEASE := Transaction(
    [LET_HELD],
    [Field(Held, ZoneId)],
    [HOLDS_THIS],
    [FREE_SLOT, UNLIST_BY_ZONE, UNLIST_BY_DRONE])

  /** The nine values of a grant. */
  function GrantParams(z: C.Zone, d: C.Drone, at: int): seq<Value> {
    [ZoneText(z), DroneText(d),
     ZoneText(z),
     ZoneText(z), DroneText(d), Moment(at),
     DroneText(d), ZoneText(z), Moment(at)]
  }

  /** The six values of a release. */
  function ReleaseParams(z: C.Zone, d: C.Drone): seq<Value> {
    [DroneText(d), ZoneText(z), ZoneText(z), ZoneText(z), DroneText(d), DroneText(d)]
  }

  // ----- what the client makes of the projection

  datatype Reason = Fired | NothingProjected | NoOccupancyRow | AlreadyHolds | Full | HoldsNothing | HoldsOther

  function GrantReason(p: Projection): (reason: Reason)
    ensures reason == NothingProjected <==> p == map[]
  {
    if p == map[] then NothingProjected
    else if Projected(p, Occ, Remaining).None? then NoOccupancyRow
    else if Projected(p, Held, ZoneId).Some? then AlreadyHolds
    else match Projected(p, Occ, Remaining) {
      case Some(Number(n)) => if n <= 0 then Full else Fired
      case _ => Fired
    }
  }

  function ReleaseReason(p: Projection, z: C.Zone): (reason: Reason)
    ensures reason == NothingProjected <==> p == map[]
  {
    if p == map[] then NothingProjected
    else if Projected(p, Held, ZoneId).None? then HoldsNothing
    else if Projected(p, Held, ZoneId) != Some(ZoneText(z)) then HoldsOther
    else Fired
  }

  // ----- the reads

  lemma HeldFetch(store: Store, m: HeldBy, d: C.Drone)
    requires DronesStored(store, m)
    ensures ReadHoles([LET_HELD]) == 1
    ensures Reads([LET_HELD], [DroneText(d)], store) == map[Held := HeldRead(m, d)]
  {
    ReadsCons(LET_HELD, [], [DroneText(d)], [], store);
    assert [LET_HELD] + [] == [LET_HELD] && [DroneText(d)] + [] == [DroneText(d)];
    assert ToKey([DroneText(d)]) == One(DroneText(d));
  }

  lemma GrantReads(store: Store, l: C.Ledger, z: C.Zone, d: C.Drone)
    requires OccupancyStored(store, l.occupancy) && DronesStored(store, l.byDrone)
    ensures ReadHoles(GRANT.lets) == 2
    ensures Reads(GRANT.lets, [ZoneText(z), DroneText(d)], store) == GrantEnv(l, z, d)
  {
    HeldFetch(store, l.byDrone, d);
    ReadsCons(LET_OCC, [LET_HELD], [ZoneText(z)], [DroneText(d)], store);
    assert [LET_OCC] + [LET_HELD] == GRANT.lets;
    assert [ZoneText(z)] + [DroneText(d)] == [ZoneText(z), DroneText(d)];
    assert ToKey([ZoneText(z)]) == One(ZoneText(z));
  }

  function GrantEnv(l: C.Ledger, z: C.Zone, d: C.Drone): Env {
    map[Occ := OccRead(l.occupancy, z), Held := HeldRead(l.byDrone, d)]
  }

  function ReleaseEnv(l: C.Ledger, d: C.Drone): Env {
    map[Held := HeldRead(l.byDrone, d)]
  }

  // ----- the conditions

  lemma GrantCondition(l: C.Ledger, z: C.Zone, d: C.Drone)
    ensures GuardHoles(GRANT.condition) == 0
    ensures AllHold(GRANT.condition, [], GrantEnv(l, z, d)) <==> C.CanGrant(l, z, d)
  {
    var env := GrantEnv(l, z, d);
    AllHoldCons(HOLDS_NOTHING, [], [], [], env);
    AllHoldCons(SLOTS_LEFT, [HOLDS_NOTHING], [], [], env);
    AllHoldCons(SLOTS_KNOWN, [SLOTS_LEFT, HOLDS_NOTHING], [], [], env);
    var none: seq<Value> := [];
    assert none + [] == none;
    assert [HOLDS_NOTHING] + [] == [HOLDS_NOTHING];
    assert [SLOTS_LEFT] + [HOLDS_NOTHING] == [SLOTS_LEFT, HOLDS_NOTHING];
    assert [SLOTS_KNOWN] + [SLOTS_LEFT, HOLDS_NOTHING] == GRANT.condition;
  }

  lemma ReleaseCondition(l: C.Ledger, z: C.Zone, d: C.Drone)
    ensures GuardHoles(RELEASE.condition) == 1
    ensures AllHold(RELEASE.condition, [ZoneText(z)], ReleaseEnv(l, d)) <==> C.CanRelease(l, z, d)
  {
    AllHoldCons(HOLDS_THIS, [], [ZoneText(z)], [], ReleaseEnv(l, d));
    assert [HOLDS_THIS] + [] == RELEASE.condition && [ZoneText(z)] + [] == [ZoneText(z)];
  }

  // ----- the writes, one table at a time

  /** The store after one write to one table. */
  function After(store: Store, write: Write, values: seq<Value>): Store
    requires |values| == WriteHole(write)
  {
    store[write.table := WriteRow(write, values, RowsOf(store, write.table))]
  }

  /** A write leaves the other tables alone. */
  lemma OtherTables(store: Store, write: Write, values: seq<Value>, l: C.Ledger)
    requires |values| == WriteHole(write) && Stores(store, l)
    ensures write.table != ZoneOccupancy ==> OccupancyStored(After(store, write, values), l.occupancy)
    ensures write.table != ZoneClearance ==> ZonesStored(After(store, write, values), l.byZone)
    ensures write.table != DroneClearance ==> DronesStored(After(store, write, values), l.byDrone)
  {
    var after := After(store, write, values);
    assert forall t, k :: t != write.table ==> Fetch(after, t, k) == Fetch(store, t, k);
  }

  lemma SlotWrite(store: Store, m: Occupied, z: C.Zone, delta: int)
    requires OccupancyStored(store, m)
    ensures OccupancyStored(After(store, AddTo(ZoneOccupancy, Remaining, delta, [ZoneId]), [ZoneText(z)]),
                            C.Adjust(m, z, delta))
  {
    var write := AddTo(ZoneOccupancy, Remaining, delta, [ZoneId]);
    var after, next := After(store, write, [ZoneText(z)]), C.Adjust(m, z, delta);
    assert ToKey([ZoneText(z)]) == One(ZoneText(z));
    forall y ensures Fetch(after, ZoneOccupancy, One(ZoneText(y))) == OccRead(next, y) {
      assert Fetch(store, ZoneOccupancy, One(ZoneText(y))) == OccRead(m, y);
      if y == z && z in m {
        assert OccupancyRow(z, m[z])[Remaining := Number(m[z].remaining + delta)]
            == OccupancyRow(z, m[z].(remaining := m[z].remaining + delta));
      }
    }
  }

  lemma ListByZoneWrite(store: Store, m: Listed, z: C.Zone, d: C.Drone, at: int)
    requires ZonesStored(store, m)
    ensures ZonesStored(After(store, LIST_BY_ZONE, [ZoneText(z), DroneText(d), Moment(at)]), m[(z, d) := at])
  {
    var rows, key := RowsOf(store, ZoneClearance), Two(ZoneText(z), DroneText(d));
    assert Fetch(store, ZoneClearance, key) == ListedRead(m, z, d);
    ListByZoneRow(rows, z, d, at);
    forall y, e
      ensures Fetch(store[ZoneClearance := rows[key := ClearanceRow(z, d, at)]], ZoneClearance,
                    Two(ZoneText(y), DroneText(e))) == ListedRead(m[(z, d) := at], y, e)
    {
      assert Fetch(store, ZoneClearance, Two(ZoneText(y), DroneText(e))) == ListedRead(m, y, e);
    }
  }

  lemma ListByZoneRow(rows: Rows, z: C.Zone, d: C.Drone, at: int)
    requires
      var key := Two(ZoneText(z), DroneText(d));
      key in rows ==> rows[key].Keys <= ClearanceRow(z, d, at).Keys
    ensures WriteRow(LIST_BY_ZONE, [ZoneText(z), DroneText(d), Moment(at)], rows) ==
            rows[Two(ZoneText(z), DroneText(d)) := ClearanceRow(z, d, at)]
  {
    var values, row := [ZoneText(z), DroneText(d), Moment(at)], ClearanceRow(z, d, at);
    BoundThree(ZoneId, EntityId, GrantedAt, ZoneText(z), DroneText(d), Moment(at));
    assert row == Bound(LIST_BY_ZONE.columns, values);
    KeyTwo(row, ZoneId, EntityId);
    UpsertRow(LIST_BY_ZONE, values, rows, Two(ZoneText(z), DroneText(d)), row);
  }

  lemma ListByDroneWrite(store: Store, m: HeldBy, z: C.Zone, d: C.Drone, at: int)
    requires DronesStored(store, m)
    ensures DronesStored(After(store, LIST_BY_DRONE, [DroneText(d), ZoneText(z), Moment(at)]),
                         m[d := C.Holding(z, at)])
  {
    var values := [DroneText(d), ZoneText(z), Moment(at)];
    var after, next := After(store, LIST_BY_DRONE, values), m[d := C.Holding(z, at)];
    var row, key := ClearanceRow(z, d, at), One(DroneText(d));
    BoundThree(EntityId, ZoneId, GrantedAt, DroneText(d), ZoneText(z), Moment(at));
    assert row == Bound(LIST_BY_DRONE.columns, values);
    KeyOne(row, EntityId);
    assert Fetch(store, DroneClearance, key) == HeldRead(m, d);
    UpsertRow(LIST_BY_DRONE, values, RowsOf(store, DroneClearance), key, row);
    forall e ensures Fetch(after, DroneClearance, One(DroneText(e))) == HeldRead(next, e) {
      assert Fetch(store, DroneClearance, One(DroneText(e))) == HeldRead(m, e);
    }
  }

  lemma UnlistByZoneWrite(store: Store, m: Listed, z: C.Zone, d: C.Drone)
    requires ZonesStored(store, m)
    ensures ZonesStored(After(store, UNLIST_BY_ZONE, [ZoneText(z), DroneText(d)]), m - {(z, d)})
  {
    var after := After(store, UNLIST_BY_ZONE, [ZoneText(z), DroneText(d)]);
    assert ToKey([ZoneText(z), DroneText(d)]) == Two(ZoneText(z), DroneText(d));
    forall y, e ensures Fetch(after, ZoneClearance, Two(ZoneText(y), DroneText(e))) == ListedRead(m - {(z, d)}, y, e) {
      assert Fetch(store, ZoneClearance, Two(ZoneText(y), DroneText(e))) == ListedRead(m, y, e);
    }
  }

  lemma UnlistByDroneWrite(store: Store, m: HeldBy, d: C.Drone)
    requires DronesStored(store, m)
    ensures DronesStored(After(store, UNLIST_BY_DRONE, [DroneText(d)]), m - {d})
  {
    var after := After(store, UNLIST_BY_DRONE, [DroneText(d)]);
    assert ToKey([DroneText(d)]) == One(DroneText(d));
    forall e ensures Fetch(after, DroneClearance, One(DroneText(e))) == HeldRead(m - {d}, e) {
      assert Fetch(store, DroneClearance, One(DroneText(e))) == HeldRead(m, e);
    }
  }

  /** Two writes in the order of the text, each with its share of the values. */
  lemma TwoWrites(b: Write, c: Write, v: seq<Value>, w: seq<Value>, store: Store)
    requires |v| == WriteHole(b) && |w| == WriteHole(c)
    ensures WriteHoles([b, c]) == |v| + |w|
    ensures Writes([b, c], v + w, store) == After(After(store, b, v), c, w)
  {
    WritesCons(c, [], w, [], After(store, b, v));
    assert [c] + [] == [c] && w + [] == w;
    WritesCons(b, [c], v, w, store);
    assert [b] + [c] == [b, c];
  }

  lemma ThreeWrites(a: Write, b: Write, c: Write, u: seq<Value>, v: seq<Value>, w: seq<Value>, store: Store)
    requires |u| == WriteHole(a) && |v| == WriteHole(b) && |w| == WriteHole(c)
    ensures WriteHoles([a, b, c]) == |u| + |v| + |w|
    ensures Writes([a, b, c], u + v + w, store) == After(After(After(store, a, u), b, v), c, w)
  {
    var rest, values := [b, c], v + w;
    TwoWrites(b, c, v, w, After(store, a, u));
    WritesCons(a, rest, u, values, store);
    assert [a] + rest == [a, b, c];
    Associative(u, v, w);
  }

  /** The values of a grant's three writes. */
  lemma GrantTail(z: C.Zone, d: C.Drone, at: int)
    ensures GrantParams(z, d, at)[2..] ==
            [ZoneText(z)] + [ZoneText(z), DroneText(d), Moment(at)] + [DroneText(d), ZoneText(z), Moment(at)]
  {
  }

  lemma GrantWrites(store: Store, l: C.Ledger, z: C.Zone, d: C.Drone, at: int)
    requires Stores(store, l) && C.CanGrant(l, z, d)
    ensures WriteHoles(GRANT.writes) == 7
    ensures Stores(Writes(GRANT.writes, GrantParams(z, d, at)[2..], store), C.Grant(l, z, d, at))
  {
    var v1, v2, v3 := [ZoneText(z)], [ZoneText(z), DroneText(d), Moment(at)], [DroneText(d), ZoneText(z), Moment(at)];
    ThreeWrites(TAKE_SLOT, LIST_BY_ZONE, LIST_BY_DRONE, v1, v2, v3, store);
    GrantTail(z, d, at);
    var s1 := TakeSlotStores(store, l, z);
    ListStores(s1, l.(occupancy := C.Adjust(l.occupancy, z, -1)), z, d, at);
  }

  lemma TakeSlotStores(store: Store, l: C.Ledger, z: C.Zone) returns (after: Store)
    requires Stores(store, l)
    ensures after == After(store, TAKE_SLOT, [ZoneText(z)])
    ensures Stores(after, l.(occupancy := C.Adjust(l.occupancy, z, -1)))
  {
    after := After(store, TAKE_SLOT, [ZoneText(z)]);
    SlotWrite(store, l.occupancy, z, -1);
    OtherTables(store, TAKE_SLOT, [ZoneText(z)], l);
  }

  lemma ListStores(store: Store, l: C.Ledger, z: C.Zone, d: C.Drone, at: int)
    requires Stores(store, l)
    ensures
      var byZone := After(store, LIST_BY_ZONE, [ZoneText(z), DroneText(d), Moment(at)]);
      var byDrone := After(byZone, LIST_BY_DRONE, [DroneText(d), ZoneText(z), Moment(at)]);
      Stores(byDrone, l.(byZone := l.byZone[(z, d) := at], byDrone := l.byDrone[d := C.Holding(z, at)]))
  {
    var v2, v3 := [ZoneText(z), DroneText(d), Moment(at)], [DroneText(d), ZoneText(z), Moment(at)];
    var s2, l2 := After(store, LIST_BY_ZONE, v2), l.(byZone := l.byZone[(z, d) := at]);
    ListByZoneWrite(store, l.byZone, z, d, at);
    OtherTables(store, LIST_BY_ZONE, v2, l);
    ListByDroneWrite(s2, l.byDrone, z, d, at);
    OtherTables(s2, LIST_BY_DRONE, v3, l2);
  }

  lemma ReleaseWrites(store: Store, l: C.Ledger, z: C.Zone, d: C.Drone)
    requires Stores(store, l) && C.CanRelease(l, z, d)
    ensures WriteHoles(RELEASE.writes) == 4
    ensures Stores(Writes(RELEASE.writes, ReleaseParams(z, d)[2..], store), C.Release(l, z, d))
  {
    var v1, v2, v3 := [ZoneText(z)], [ZoneText(z), DroneText(d)], [DroneText(d)];
    ThreeWrites(FREE_SLOT, UNLIST_BY_ZONE, UNLIST_BY_DRONE, v1, v2, v3, store);
    assert v1 + v2 + v3 == ReleaseParams(z, d)[2..];
    var l1 := l.(occupancy := C.Adjust(l.occupancy, z, 1));
    var l2 := l1.(byZone := l1.byZone - {(z, d)});
    var s1 := After(store, FREE_SLOT, v1);
    var s2 := After(s1, UNLIST_BY_ZONE, v2);
    SlotWrite(store, l.occupancy, z, 1);
    OtherTables(store, FREE_SLOT, v1, l);
    UnlistByZoneWrite(s1, l.byZone, z, d);
    OtherTables(s1, UNLIST_BY_ZONE, v2, l1);
    UnlistByDroneWrite(s2, l.byDrone, d);
    OtherTables(s2, UNLIST_BY_DRONE, v3, l2);
    assert l2.(byDrone := l2.byDrone - {d}) == C.Release(l, z, d);
  }

  // ----- the statements as a whole

  /** The grant's text with its nine values does exactly the guarded grant, and the reason
      the client reads is empty exactly when it fired. */
  lemma GrantText(store: Store, l: C.Ledger, z: C.Zone, d: C.Drone, at: int)
    requires Stores(store, l)
    ensures
      var outcome := Execute(GRANT, GrantParams(z, d, at), store);
      && outcome.Ran?
      && Stores(outcome.store, C.Grant(l, z, d, at))
      && (outcome.fired <==> C.CanGrant(l, z, d))
      && (GrantReason(outcome.projection) == Fired <==> C.CanGrant(l, z, d))
      && GrantReason(outcome.projection) == WhyNoGrant(l, z, d)
  {
    var none: seq<Value> := [];
    var r, w := [ZoneText(z), DroneText(d)], GrantParams(z, d, at)[2..];
    assert r + none + w == GrantParams(z, d, at);
    GrantReads(store, l, z, d);
    GrantCondition(l, z, d);
    GrantWriteHoles();
    StatementsAreWellFormed();
    ExecuteParts(GRANT, r, none, w, store);
    if C.CanGrant(l, z, d) {
      GrantWrites(store, l, z, d, at);
    }
    GrantReasonReads(l, z, d);
  }

  /** The release's text with its six values does exactly the guarded release, and the
      reason the client reads is empty exactly when it fired. */
  lemma ReleaseText(store: Store, l: C.Ledger, z: C.Zone, d: C.Drone)
    requires Stores(store, l)
    ensures
      var outcome := Execute(RELEASE, ReleaseParams(z, d), store);
      && outcome.Ran?
      && Stores(outcome.store, C.Release(l, z, d))
      && (outcome.fired <==> C.CanRelease(l, z, d))
      && (ReleaseReason(outcome.projection, z) == Fired <==> C.CanRelease(l, z, d))
      && ReleaseReason(outcome.projection, z) == WhyNoRelease(l, z, d)
  {
    var r, g, w := [DroneText(d)], [ZoneText(z)], ReleaseParams(z, d)[2..];
    assert r + g + w == ReleaseParams(z, d);
    HeldFetch(store, l.byDrone, d);
    ReleaseCondition(l, z, d);
    ReleaseWriteHoles();
    StatementsAreWellFormed();
    ExecuteParts(RELEASE, r, g, w, store);
    if C.CanRelease(l, z, d) {
      ReleaseWrites(store, l, z, d);
    }
    ReleaseReasonReads(l, z, d);
  }

  /** The store after running a transaction; a binding error leaves it. */
  function Executed(store: Store, step: C.Step): Store
    requires step.StepGrant? || step.StepRelease?
  {
    var outcome :=
      if step.StepGrant? then Execute(GRANT, GrantParams(step.zone, step.drone, step.at), store)
      else Execute(RELEASE, ReleaseParams(step.zone, step.drone), store);
    if outcome.Ran? then outcome.store else store
  }

  /** The seeding insert: every slot free. */
  const SEED_ROW := Insert(ZoneOccupancy, [ZoneId, ZoneName, Severity, Capacity, Remaining])

  function SeedValues(seed: C.Seed): seq<Value> {
    [ZoneText(seed.zone), Text(seed.name), Text(seed.severity), Number(seed.capacity), Number(seed.capacity)]
  }

  lemma BoundSeed(seed: C.Seed)
    ensures Bound(SEED_ROW.columns, SeedValues(seed)) ==
            OccupancyRow(seed.zone, C.Occupancy(seed.name, seed.severity, seed.capacity, seed.capacity))
  {
    var n := Number(seed.capacity);
    var c3, v3 := [Severity, Capacity, Remaining], [Text(seed.severity), n, n];
    BoundThree(Severity, Capacity, Remaining, Text(seed.severity), n, n);
    BoundCons(ZoneName, c3, Text(seed.name), v3);
    BoundCons(ZoneId, [ZoneName] + c3, ZoneText(seed.zone), [Text(seed.name)] + v3);
    assert [ZoneId] + ([ZoneName] + c3) == SEED_ROW.columns;
    assert [ZoneText(seed.zone)] + ([Text(seed.name)] + v3) == SeedValues(seed);
  }

  lemma SeedInsert(store: Store, m: Occupied, seed: C.Seed)
    requires OccupancyStored(store, m)
    ensures OccupancyStored(After(store, SEED_ROW, SeedValues(seed)),
                            m[seed.zone := C.Occupancy(seed.name, seed.severity, seed.capacity, seed.capacity)])
  {
    var z, o := seed.zone, C.Occupancy(seed.name, seed.severity, seed.capacity, seed.capacity);
    var after, row := After(store, SEED_ROW, SeedValues(seed)), OccupancyRow(z, o);
    BoundSeed(seed);
    KeyOne(row, ZoneId);
    assert Fetch(store, ZoneOccupancy, One(ZoneText(z))) == OccRead(m, z);
    UpsertRow(SEED_ROW, SeedValues(seed), RowsOf(store, ZoneOccupancy), One(ZoneText(z)), row);
    forall y ensures Fetch(after, ZoneOccupancy, One(ZoneText(y))) == OccRead(m[z := o], y) {
      assert Fetch(store, ZoneOccupancy, One(ZoneText(y))) == OccRead(m, y);
    }
  }

  /** The tables, and what each seeder has read as absent. */
  datatype Running = Running(store: Store, pending: map<nat, C.Seed>)

  /** One step as its statement does it: a transaction's text, a seeder's select or its insert. */
  function Perform(r: Running, step: C.Step): Running {
    match step
    case StepGrant(_, _, _) => r.(store := Executed(r.store, step))
    case StepRelease(_, _) => r.(store := Executed(r.store, step))
    case SeedRead(id, seed) =>
      if id in r.pending || Fetch(r.store, ZoneOccupancy, One(ZoneText(seed.zone))).Some? then r
      else r.(pending := r.pending[id := seed])
    case SeedWrite(id) =>
      if id !in r.pending then r
      else Running(After(r.store, SEED_ROW, SeedValues(r.pending[id])), r.pending - {id})
    case SeedGivesUp(id) => r.(pending := r.pending - {id})
  }

  function PerformAll(steps: seq<C.Step>): Running {
    if steps == [] then Running(map[], map[])
    else Perform(PerformAll(steps[..|steps| - 1]), steps[|steps| - 1])
  }

  /** The statements' state holds the run's. */
  ghost predicate Holds(r: Running, s: C.System) { Stores(r.store, s.ledger) && r.pending == s.pending }

  lemma PerformHolds(r: Running, s: C.System, step: C.Step)
    requires Holds(r, s)
    ensures Holds(Perform(r, step), C.Next(s, step))
  {
    match step
    case StepGrant(z, d, at) => GrantText(r.store, s.ledger, z, d, at);
    case StepRelease(z, d) => ReleaseText(r.store, s.ledger, z, d);
    case SeedRead(_, seed) =>
      assert Fetch(r.store, ZoneOccupancy, One(ZoneText(seed.zone))) == OccRead(s.ledger.occupancy, seed.zone);
    case SeedWrite(id) =>
      if id in s.pending {
        SeedInsert(r.store, s.ledger.occupancy, s.pending[id]);
        OtherTables(r.store, SEED_ROW, SeedValues(s.pending[id]), s.ledger);
      }
    case SeedGivesUp(_) =>
  }

  /** Any run of grant and release texts, seeders' selects and inserts, from empty tables, keeps
      the stored rows in step with the ledger. */
  lemma {:induction false} TextsRefineLedger(steps: seq<C.Step>)
    ensures Holds(PerformAll(steps), C.Run(steps))
  {
    if steps != [] {
      var init := steps[..|steps| - 1];
      TextsRefineLedger(init);
      PerformHolds(PerformAll(init), C.Run(init), steps[|steps| - 1]);
    }
  }

  /** So the rows the texts leave behind, with one seeder, are those of a consistent ledger. */
  lemma TextsKeepInvariant(steps: seq<C.Step>)
    requires C.OneSeeder(steps)
    ensures exists l :: Stores(PerformAll(steps).store, l) && C.Consistent(l)
  {
    TextsRefineLedger(steps);
    C.RunsAreConsistent(steps);
  }

  // ----- counting the writes' placeholders, and reading the projections

  lemma StatementsAreWellFormed()
    ensures WellFormed(GRANT) && WellFormed(RELEASE)
  {
    GrantIsWellFormed();
    assert LET_HELD == RELEASE.lets[0];
  }

  lemma GrantIsWellFormed()
    ensures WellFormed(GRANT)
  {
    assert LET_OCC == GRANT.lets[0] && LET_HELD == GRANT.lets[1];
  }

  lemma GrantWriteHoles()
    ensures WriteHoles(GRANT.writes) == 7
  {
    var v1, v3 := [Number(0)], [Number(0), Number(0), Number(0)];
    ThreeWrites(TAKE_SLOT, LIST_BY_ZONE, LIST_BY_DRONE, v1, v3, v3, map[]);
  }

  lemma ReleaseWriteHoles()
    ensures WriteHoles(RELEASE.writes) == 4
  {
    var v1, v2 := [Number(0)], [Number(0), Number(0)];
    ThreeWrites(FREE_SLOT, UNLIST_BY_ZONE, UNLIST_BY_DRONE, v1, v2, v1, map[]);
  }

  /** What keeps a grant from firing, as the ledger has it: an unknown zone before a drone that
      holds something, and that before a full zone. */
  function WhyNoGrant(l: C.Ledger, z: C.Zone, d: C.Drone): Reason {
    if z !in l.occupancy then NoOccupancyRow
    else if d in l.byDrone then AlreadyHolds
    else if l.occupancy[z].remaining <= 0 then Full
    else Fired
  }

  function WhyNoRelease(l: C.Ledger, z: C.Zone, d: C.Drone): Reason {
    if d !in l.byDrone then HoldsNothing
    else if l.byDrone[d].zone != z then HoldsOther
    else Fired
  }

  lemma GrantReasonReads(l: C.Ledger, z: C.Zone, d: C.Drone)
    ensures GrantReason(Project(GRANT.projection, GrantEnv(l, z, d))) == WhyNoGrant(l, z, d)
    ensures WhyNoGrant(l, z, d) == Fired <==> C.CanGrant(l, z, d)
  {
    var env := GrantEnv(l, z, d);
    assert GRANT.projection[0] == Field(Occ, Remaining) && GRANT.projection[2] == Field(Held, ZoneId);
    assert Field(Occ, Remaining) in Project(GRANT.projection, env);
  }

  lemma ReleaseReasonReads(l: C.Ledger, z: C.Zone, d: C.Drone)
    ensures ReleaseReason(Project(RELEASE.projection, ReleaseEnv(l, d)), z) == WhyNoRelease(l, z, d)
    ensures WhyNoRelease(l, z, d) == Fired <==> C.CanRelease(l, z, d)
  {
    var env := ReleaseEnv(l, d);
    assert RELEASE.projection[0] == Field(Held, ZoneId);
    assert Field(Held, ZoneId) in Project(RELEASE.projection, env);
  }
}
