/** Resetting and contending for clearances: the routes that drive many transactions.

They hold the demo's lock, so no other grant or release runs beside them.
 */
module Contention {
  import opened Clearance
  import opened ClearanceAudit
  import opened Collections
  import opened Endings

  // ----- reset

  ghost predicate SameZones(l: Ledger, m: Ledger) {
    && l.occupancy.Keys == m.occupancy.Keys
    && forall z :: z in l.occupancy ==>
         m.occupancy[z] == l.occupancy[z].(remaining := m.occupancy[z].remaining)
  }

  /** Nobody holds anything and every slot is free. */
  ghost predicate AllFree(l: Ledger) {
    && l.byDrone == map[]
    && l.byZone == map[]
    && forall z :: z in l.occupancy ==> 0 <= l.occupancy[z].remaining == l.occupancy[z].capacity
  }

  lemma NoHoldersIsAllFree(l: Ledger)
    requires Consistent(l) && l.byDrone == map[]
    ensures AllFree(l)
  {
    assert forall z, d :: (z, d) in l.byZone ==> d in l.byDrone;
    forall k ensures k !in l.byZone {
      assert k == (k.0, k.1);
    }
    forall z | z in l.occupancy ensures 0 <= l.occupancy[z].remaining == l.occupancy[z].capacity {
      assert Balanced(l, z) && Holders(l, z) == {};
    }
  }

  /** One line of a reset: a release and how it ended. */
  datatype Return = Return(zone: Zone, drone: Drone, ending: Ending)

  function ReturnNext(l: Ledger, r: Return): Ledger {
    if r.ending == ErroredLost then l else Release(l, r.zone, r.drone)
  }

  /** The ledger after a list of releases. */
  function Releases(l: Ledger, list: seq<Return>): Ledger {
    if list == [] then l else ReturnNext(Releases(l, list[..|list| - 1]), list[|list| - 1])
  }

  /** Every release found its clearance still held when its turn came, so none was refused. */
  ghost predicate NoneRefused(l: Ledger, list: seq<Return>) {
    forall i :: 0 <= i < |list| ==> CanRelease(Releases(l, list[..i]), list[i].zone, list[i].drone)
  }

  /** The drones whose releases reached the tables. */
  function Returned(list: seq<Return>): set<Drone> {
    if list == [] then {}
    else
      var before, last := Returned(list[..|list| - 1]), list[|list| - 1];
      if last.ending == ErroredLost then before else before + {last.drone}
  }

  lemma {:induction false} ReturnedOf(list: seq<Return>, d: Drone)
    ensures d in Returned(list) <==> exists i :: 0 <= i < |list| && list[i].drone == d && list[i].ending != ErroredLost
  {
    if list != [] {
      ReturnedOf(list[..|list| - 1], d);
    }
  }

  lemma {:induction false} ReleasesKeep(l: Ledger, list: seq<Return>)
    requires Consistent(l)
    ensures Consistent(Releases(l, list))
  {
    if list != [] {
      var init, last := list[..|list| - 1], list[|list| - 1];
      ReleasesKeep(l, init);
      ReleaseKeeps(Releases(l, init), last.zone, last.drone);
    }
  }

  lemma {:induction false} ReleasesSameZones(l: Ledger, list: seq<Return>)
    ensures SameZones(l, Releases(l, list))
  {
    if list != [] {
      ReleasesSameZones(l, list[..|list| - 1]);
    }
  }

  /** Clearances each held, no drone named twice. */
  ghost predicate EachHeldOnce(l: Ledger, list: seq<Return>) {
    && (forall i :: 0 <= i < |list| ==> CanRelease(l, list[i].zone, list[i].drone))
    && (forall i, j :: 0 <= i < j < |list| ==> list[i].drone != list[j].drone)
  }

  /** Such a list takes back what reached the tables. */
  lemma {:induction false} ReleasesDrop(l: Ledger, list: seq<Return>)
    requires EachHeldOnce(l, list)
    ensures Releases(l, list).byDrone == l.byDrone - Returned(list)
  {
    if list != [] {
      var n := |list| - 1;
      assert EachHeldOnce(l, list[..n]);
      ReleasesDrop(l, list[..n]);
      ReturnedOf(list[..n], list[n].drone);
      assert CanRelease(l, list[n].zone, list[n].drone);
      assert CanRelease(Releases(l, list[..n]), list[n].zone, list[n].drone);
    }
  }

  /** And no line of it is refused. */
  lemma HeldAreNotRefused(l: Ledger, list: seq<Return>)
    requires EachHeldOnce(l, list)
    ensures NoneRefused(l, list)
  {
    forall i | 0 <= i < |list| ensures CanRelease(Releases(l, list[..i]), list[i].zone, list[i].drone) {
      assert CanRelease(l, list[i].zone, list[i].drone);
      ReleasesDrop(l, list[..i]);
      ReturnedOf(list[..i], list[i].drone);
    }
  }

  /** The clearances a list names. */
  function Named(list: seq<Return>): set<(Zone, Drone)> {
    if list == [] then {}
    else Named(list[..|list| - 1]) + {(list[|list| - 1].zone, list[|list| - 1].drone)}
  }

  /** No clearance is named twice. */
  predicate EachOnce(list: seq<Return>) {
    list != [] ==>
      var init, last := list[..|list| - 1], list[|list| - 1];
      EachOnce(init) && (last.zone, last.drone) !in Named(init)
  }

  lemma {:induction false} NamedAt(list: seq<Return>, i: nat)
    requires i < |list|
    ensures (list[i].zone, list[i].drone) in Named(list)
  {
    if i < |list| - 1 {
      NamedAt(list[..|list| - 1], i);
    }
  }

  lemma {:induction false} NamedIs(list: seq<Return>, z: Zone, d: Drone) returns (i: nat)
    requires (z, d) in Named(list)
    ensures i < |list| && list[i].zone == z && list[i].drone == d
  {
    var n := |list| - 1;
    if (list[n].zone, list[n].drone) == (z, d) {
      i := n;
    } else {
      i := NamedIs(list[..n], z, d);
    }
  }

  /** The list names every clearance in the ledger, each once. */
  ghost predicate Lists(l: Ledger, list: seq<Return>) {
    EachOnce(list) && Named(list) == l.byZone.Keys
  }

  lemma {:induction false} ListedAreHeldOnce(l: Ledger, list: seq<Return>)
    requires Mirrored(l) && EachOnce(list) && Named(list) <= l.byZone.Keys
    ensures EachHeldOnce(l, list)
  {
    if list != [] {
      var n := |list| - 1;
      ListedAreHeldOnce(l, list[..n]);
      NamedAt(list, n);
      forall i | 0 <= i < n ensures list[i].drone != list[n].drone {
        NamedAt(list[..n], i);
        assert CanRelease(l, list[..n][i].zone, list[..n][i].drone);
      }
    }
  }

  /** No release was lost to an error. */
  predicate NoneLost(list: seq<Return>) { forall i :: 0 <= i < |list| ==> list[i].ending != ErroredLost }

  /** Releasing every listed clearance leaves exactly the drones whose release was lost, refuses
      no line, and frees every slot if and only if none was lost. */
  lemma ResetFrees(l: Ledger, list: seq<Return>)
    requires Consistent(l) && Lists(l, list)
    ensures
      var after := Releases(l, list);
      && Consistent(after) && SameZones(l, after) && NoneRefused(l, list)
      && after.byDrone == l.byDrone - Returned(list)
      && (AllFree(after) <==> NoneLost(list))
  {
    ListedAreHeldOnce(l, list);
    ReleasesDrop(l, list);
    HeldAreNotRefused(l, list);
    ReleasesSameZones(l, list);
    ReleasesKeep(l, list);
    LostStay(l, list);
    NothingLeft(l.byDrone, Returned(list));
    FreeIff(Releases(l, list));
  }

  lemma FreeIff(l: Ledger)
    requires Consistent(l)
    ensures AllFree(l) <==> l.byDrone == map[]
  {
    if l.byDrone == map[] {
      NoHoldersIsAllFree(l);
    }
  }

  lemma NothingLeft(held: map<Drone, Holding>, gone: set<Drone>)
    ensures held - gone == map[] <==> held.Keys <= gone
  {
    if held.Keys <= gone {
      assert (held - gone).Keys == {};
    } else {
      var d :| d in held && d !in gone;
      assert d in held - gone;
    }
  }

  lemma LostStay(l: Ledger, list: seq<Return>)
    requires Mirrored(l) && Lists(l, list) && EachHeldOnce(l, list)
    ensures NoneLost(list) <==> l.byDrone.Keys <= Returned(list)
  {
    if NoneLost(list) {
      forall d | d in l.byDrone ensures d in Returned(list) {
        var i := NamedIs(list, l.byDrone[d].zone, d);
        ReturnedOf(list, d);
      }
    } else {
      var i :| 0 <= i < |list| && list[i].ending == ErroredLost;
      ReturnedOf(list, list[i].drone);
      assert CanRelease(l, list[i].zone, list[i].drone);
    }
  }

  // ----- contention

  datatype Ask = Ask(drone: Drone, ending: Ending)

  /** One ask, as the tables see it. */
  function AskNext(l: Ledger, z: Zone, ask: Ask, at: int): Ledger {
    if ask.ending == ErroredLost then l else Grant(l, z, ask.drone, at)
  }

  /** The transactions of a contention in the serial order they took effect. */
  function Asked(l: Ledger, z: Zone, asks: seq<Ask>, at: int): Ledger {
    if asks == [] then l
    else AskNext(Asked(l, z, asks[..|asks| - 1], at), z, asks[|asks| - 1], at)
  }

  /** The caller of the last ask heard that the grant applied. */
  predicate Hears(l: Ledger, z: Zone, asks: seq<Ask>, at: int)
    requires asks != []
  {
    var ask := asks[|asks| - 1];
    ask.ending == Answered && CanGrant(Asked(l, z, asks[..|asks| - 1], at), z, ask.drone)
  }

  /** The drones whose caller heard that the grant applied. */
  function Heard(l: Ledger, z: Zone, asks: seq<Ask>, at: int): set<Drone> {
    if asks == [] then {}
    else
      Heard(l, z, asks[..|asks| - 1], at)
      + if Hears(l, z, asks, at) then {asks[|asks| - 1].drone} else {}
  }

  /** How many callers heard that the grant applied. */
  function HeardCount(l: Ledger, z: Zone, asks: seq<Ask>, at: int): nat {
    if asks == [] then 0
    else HeardCount(l, z, asks[..|asks| - 1], at) + if Hears(l, z, asks, at) then 1 else 0
  }

  /** The ask reaches the tables, from a drone that held nothing before the contention. */
  predicate Counts(l: Ledger, ask: Ask) { ask.ending != ErroredLost && ask.drone !in l.byDrone }

  function Reached(l: Ledger, asks: seq<Ask>): nat {
    if asks == [] then 0
    else Reached(l, asks[..|asks| - 1]) + if Counts(l, asks[|asks| - 1]) then 1 else 0
  }

  /** How many asks got no answer. */
  function Unanswered(asks: seq<Ask>): nat {
    if asks == [] then 0
    else Unanswered(asks[..|asks| - 1]) + if asks[|asks| - 1].ending != Answered then 1 else 0
  }

  /** The drones that asked, or only those that got an answer. */
  function Askers(asks: seq<Ask>, answered: bool): set<Drone> {
    if asks == [] then {}
    else
      var init, ask := asks[..|asks| - 1], asks[|asks| - 1];
      Askers(init, answered)
      + if answered && ask.ending != Answered then {} else {ask.drone}
  }

  function Min(a: int, b: int): int { if a < b then a else b }

  ghost predicate Distinct(asks: seq<Ask>) {
    forall i, j :: 0 <= i < j < |asks| ==> asks[i].drone != asks[j].drone
  }

  lemma AskKeeps(l: Ledger, z: Zone, ask: Ask, at: int)
    requires Consistent(l)
    ensures Consistent(AskNext(l, z, ask, at)) && SameZones(l, AskNext(l, z, ask, at))
  {
    GrantKeeps(l, z, ask.drone, at);
    GrantSameZones(l, z, ask.drone, at);
  }

  lemma GrantSameZones(l: Ledger, z: Zone, d: Drone, at: int)
    ensures SameZones(l, Grant(l, z, d, at))
  {
  }

  /** The holders after an ask: one more exactly when it reached the tables and fired. */
  lemma AskHolders(l: Ledger, z: Zone, ask: Ask, at: int)
    requires Mirrored(l)
    ensures
      var fires := ask.ending != ErroredLost && CanGrant(l, z, ask.drone);
      && Holders(AskNext(l, z, ask, at), z) == Holders(l, z) + (if fires then {ask.drone} else {})
      && (fires ==> ask.drone !in Holders(l, z))
  {
    if ask.ending != ErroredLost && CanGrant(l, z, ask.drone) {
      GrantHolders(l, z, ask.drone, at);
    }
  }

  lemma {:induction false} AskedKeeps(l: Ledger, z: Zone, asks: seq<Ask>, at: int)
    requires Consistent(l)
    ensures Consistent(Asked(l, z, asks, at)) && SameZones(l, Asked(l, z, asks, at))
  {
    if asks != [] {
      var init := asks[..|asks| - 1];
      AskedKeeps(l, z, init, at);
      AskKeeps(Asked(l, z, init, at), z, asks[|asks| - 1], at);
    }
  }

  /** What a contention needs of the ledger before each ask. */
  lemma AskedFacts(l: Ledger, z: Zone, asks: seq<Ask>, at: int)
    requires Consistent(l)
    ensures
      var after := Asked(l, z, asks, at);
      && Mirrored(after)
      && (z in l.occupancy ==>
            z in after.occupancy && Balanced(after, z) && after.occupancy[z].capacity == l.occupancy[z].capacity)
  {
    AskedKeeps(l, z, asks, at);
  }

  lemma {:induction false} NotYetAsked(asks: seq<Ask>, d: Drone, answered: bool)
    requires forall i :: 0 <= i < |asks| ==> asks[i].drone != d
    ensures d !in Askers(asks, answered)
  {
    if asks != [] {
      NotYetAsked(asks[..|asks| - 1], d, answered);
    }
  }

  /** Nobody loses a clearance, and only askers get one. */
  lemma {:induction false} OnlyAskersEnter(l: Ledger, z: Zone, asks: seq<Ask>, at: int)
    ensures
      var after := Asked(l, z, asks, at);
      l.byDrone.Keys <= after.byDrone.Keys <= l.byDrone.Keys + Askers(asks, false)
  {
    if asks != [] {
      OnlyAskersEnter(l, z, asks[..|asks| - 1], at);
    }
  }

  /** The next asker holds something exactly if it did before the contention. */
  lemma NextAskerIsNew(l: Ledger, z: Zone, asks: seq<Ask>, at: int)
    requires Distinct(asks) && asks != []
    ensures
      var init, d := asks[..|asks| - 1], asks[|asks| - 1].drone;
      && (d in Asked(l, z, init, at).byDrone <==> d in l.byDrone)
      && d !in Askers(init, true) && d !in Askers(init, false)
  {
    var init, ask := asks[..|asks| - 1], asks[|asks| - 1];
    OnlyAskersEnter(l, z, init, at);
    NotYetAsked(init, ask.drone, false);
    NotYetAsked(init, ask.drone, true);
  }

  /** One ask more: the holders follow the wish up to the capacity. */
  lemma AskFills(l: Ledger, z: Zone, ask: Ask, at: int, counts: bool, want: nat)
    requires Mirrored(l) && z in l.occupancy && Balanced(l, z)
    requires counts <==> ask.ending != ErroredLost && ask.drone !in l.byDrone
    requires |Holders(l, z)| == Min(l.occupancy[z].capacity, want)
    ensures |Holders(AskNext(l, z, ask, at), z)| == Min(l.occupancy[z].capacity, want + if counts then 1 else 0)
  {
    AskHolders(l, z, ask, at);
  }

  lemma LastAskFills(l: Ledger, z: Zone, asks: seq<Ask>, at: int, want: nat)
    requires Consistent(l) && z in l.occupancy && Distinct(asks) && asks != []
    requires |Holders(Asked(l, z, asks[..|asks| - 1], at), z)| == Min(l.occupancy[z].capacity, want)
    ensures |Holders(Asked(l, z, asks, at), z)| ==
            Min(l.occupancy[z].capacity, want + if Counts(l, asks[|asks| - 1]) then 1 else 0)
  {
    var init, ask := asks[..|asks| - 1], asks[|asks| - 1];
    AskedFacts(l, z, init, at);
    NextAskerIsNew(l, z, asks, at);
    AskFills(Asked(l, z, init, at), z, ask, at, Counts(l, ask), want);
  }

  lemma HoldersFit(l: Ledger, z: Zone)
    requires Consistent(l) && z in l.occupancy
    ensures |Holders(l, z)| <= l.occupancy[z].capacity
  {
    assert Balanced(l, z);
  }

  /** From any consistent ledger and in every serial order, the zone ends with as many holders as
      it had and could get, up to its capacity. */
  lemma {:induction false} ContentionFillsZone(l: Ledger, z: Zone, asks: seq<Ask>, at: int)
    requires Consistent(l) && z in l.occupancy && Distinct(asks)
    ensures |Holders(Asked(l, z, asks, at), z)| ==
            Min(l.occupancy[z].capacity, |Holders(l, z)| + Reached(l, asks))
  {
    if asks == [] {
      HoldersFit(l, z);
    } else {
      var init := asks[..|asks| - 1];
      ContentionFillsZone(l, z, init, at);
      LastAskFills(l, z, asks, at, |Holders(l, z)| + Reached(l, init));
    }
  }

  /** The drones that entered the zone. */
  function Entered(l: Ledger, z: Zone, asks: seq<Ask>, at: int): set<Drone> {
    Holders(Asked(l, z, asks, at), z) - Holders(l, z)
  }

  lemma AskEnters(base: set<Drone>, before: Ledger, z: Zone, ask: Ask, at: int)
    requires Mirrored(before) && (ask.drone in base ==> ask.drone in before.byDrone)
    ensures
      var fires := ask.ending != ErroredLost && CanGrant(before, z, ask.drone);
      Holders(AskNext(before, z, ask, at), z) - base == Holders(before, z) - base + (if fires then {ask.drone} else {})
  {
    AskHolders(before, z, ask, at);
  }

  /** The last ask reached the tables and its grant fired. */
  predicate Fires(l: Ledger, z: Zone, asks: seq<Ask>, at: int)
    requires asks != []
  {
    var ask := asks[|asks| - 1];
    ask.ending != ErroredLost && CanGrant(Asked(l, z, asks[..|asks| - 1], at), z, ask.drone)
  }

  /** One ask: the drone enters exactly if its grant fired, and hears so if it got an answer. */
  lemma HearsIsEntering(l: Ledger, z: Zone, asks: seq<Ask>, at: int)
    requires Consistent(l) && Distinct(asks) && asks != []
    ensures
      var init, ask := asks[..|asks| - 1], asks[|asks| - 1];
      && Entered(l, z, asks, at) == Entered(l, z, init, at) + (if Fires(l, z, asks, at) then {ask.drone} else {})
      && (Hears(l, z, asks, at) <==> ask.ending == Answered && Fires(l, z, asks, at))
  {
    var init, ask := asks[..|asks| - 1], asks[|asks| - 1];
    AskedFacts(l, z, init, at);
    NextAskerIsNew(l, z, asks, at);
    assert ask.drone in Holders(l, z) ==> (z, ask.drone) in l.byZone;
    AskEnters(Holders(l, z), Asked(l, z, init, at), z, ask, at);
  }

  lemma {:induction false} EnteredAsked(l: Ledger, z: Zone, asks: seq<Ask>, at: int)
    requires Consistent(l) && Distinct(asks)
    ensures Entered(l, z, asks, at) <= Askers(asks, false)
  {
    if asks != [] {
      EnteredAsked(l, z, asks[..|asks| - 1], at);
      HearsIsEntering(l, z, asks, at);
    }
  }

  /** Sets that gain one element at most, and where they meet. */
  lemma MeetGrows<T>(held: set<T>, answered: set<T>, d: T, fires: bool, answers: bool)
    requires d !in held && d !in answered
    ensures
      var meet := held * answered + (if answers && fires then {d} else {});
      && meet == (held + if fires then {d} else {}) * (answered + if answers then {d} else {})
      && |meet| == |held * answered| + if answers && fires then 1 else 0
  {
  }

  lemma EnteredNew(l: Ledger, z: Zone, asks: seq<Ask>, at: int)
    requires Consistent(l) && Distinct(asks) && asks != []
    ensures
      var init, d := asks[..|asks| - 1], asks[|asks| - 1].drone;
      d !in Entered(l, z, init, at) && d !in Askers(init, true)
  {
    NextAskerIsNew(l, z, asks, at);
    EnteredAsked(l, z, asks[..|asks| - 1], at);
  }

  /** The callers that heard so are those that entered and whose ask was answered. */
  lemma {:induction false} HeardAreWinners(l: Ledger, z: Zone, asks: seq<Ask>, at: int)
    requires Consistent(l) && Distinct(asks)
    ensures Heard(l, z, asks, at) == Entered(l, z, asks, at) * Askers(asks, true)
    ensures HeardCount(l, z, asks, at) == |Heard(l, z, asks, at)|
  {
    if asks != [] {
      HeardAreWinners(l, z, asks[..|asks| - 1], at);
      LastHeard(l, z, asks, at);
    }
  }

  lemma LastHeard(l: Ledger, z: Zone, asks: seq<Ask>, at: int)
    requires Consistent(l) && Distinct(asks) && asks != []
    requires
      var init := asks[..|asks| - 1];
      && Heard(l, z, init, at) == Entered(l, z, init, at) * Askers(init, true)
      && HeardCount(l, z, init, at) == |Heard(l, z, init, at)|
    ensures Heard(l, z, asks, at) == Entered(l, z, asks, at) * Askers(asks, true)
    ensures HeardCount(l, z, asks, at) == |Heard(l, z, asks, at)|
  {
    var init, ask := asks[..|asks| - 1], asks[|asks| - 1];
    HearsIsEntering(l, z, asks, at);
    EnteredNew(l, z, asks, at);
    MeetGrows(Entered(l, z, init, at), Askers(init, true), ask.drone,
              Fires(l, z, asks, at), ask.ending == Answered);
  }

  /** No ask ended in an error. */
  predicate AllAnswered(asks: seq<Ask>) {
    forall ask :: ask in asks ==> ask.ending == Answered
  }

  lemma {:induction false} AllAnsweredReach(asks: seq<Ask>)
    requires AllAnswered(asks)
    ensures Askers(asks, true) == Askers(asks, false)
  {
    if asks != [] {
      AllAnsweredReach(asks[..|asks| - 1]);
    }
  }

  lemma {:induction false} FreeAsksReach(l: Ledger, asks: seq<Ask>)
    requires AllAnswered(asks) && l.byDrone == map[]
    ensures Reached(l, asks) == |asks|
  {
    if asks != [] {
      FreeAsksReach(l, asks[..|asks| - 1]);
    }
  }

  /** What a contention comes to, from the ledger it started with: the zone's count, and who
      heard of a grant. */
  ghost predicate Report(l: Ledger, z: Zone, asks: seq<Ask>, after: Ledger, heard: set<Drone>)
    requires z in l.occupancy
  {
    var winners, before := Holders(after, z), Holders(l, z);
    && before <= winners
    && |winners| == Min(l.occupancy[z].capacity, |before| + Reached(l, asks))
    && heard == (winners - before) * Askers(asks, true)
    && (AllAnswered(asks) ==> heard == winners - before)
    && (AllAnswered(asks) && AllFree(l) ==> heard == winners && |heard| == Min(l.occupancy[z].capacity, |asks|))
  }

  lemma ContentionReport(l: Ledger, z: Zone, asks: seq<Ask>, at: int)
    requires Consistent(l) && z in l.occupancy && Distinct(asks)
    ensures Report(l, z, asks, Asked(l, z, asks, at), Heard(l, z, asks, at))
  {
    ContentionFillsZone(l, z, asks, at);
    HeardAreWinners(l, z, asks, at);
    NoneLeave(l, z, asks, at);
    if AllAnswered(asks) {
      AllHeard(l, z, asks, at);
      if AllFree(l) {
        FreeAsksReach(l, asks);
        NobodyHolds(l, z);
      }
    }
  }

  lemma NobodyHolds(l: Ledger, z: Zone)
    requires AllFree(l)
    ensures Holders(l, z) == {}
  {
  }

  /** With an answer to every ask, everyone who entered heard so. */
  lemma AllHeard(l: Ledger, z: Zone, asks: seq<Ask>, at: int)
    requires Consistent(l) && Distinct(asks) && AllAnswered(asks)
    ensures Heard(l, z, asks, at) == Entered(l, z, asks, at)
  {
    HeardAreWinners(l, z, asks, at);
    AllAnsweredReach(asks);
    EnteredAsked(l, z, asks, at);
  }

  lemma {:induction false} NoneLeave(l: Ledger, z: Zone, asks: seq<Ask>, at: int)
    requires Consistent(l)
    ensures Holders(l, z) <= Holders(Asked(l, z, asks, at), z)
  {
    if asks != [] {
      var init := asks[..|asks| - 1];
      NoneLeave(l, z, init, at);
      AskedKeeps(l, z, init, at);
      AskHolders(Asked(l, z, init, at), z, asks[|asks| - 1], at);
    }
  }

  // ----- the routes

  /** Every clearance the list names is one the audit shows, each named once. */
  ghost predicate NamesSome(zones: map<Zone, ZoneView>, list: seq<Return>) {
    EachOnce(list) && forall z, d :: (z, d) in Named(list) ==> z in zones && d in zones[z].holders
  }

  /** And every one it shows is named. */
  ghost predicate NamesAll(zones: map<Zone, ZoneView>, list: seq<Return>) {
    NamesSome(zones, list) && forall z, d :: z in zones && d in zones[z].holders ==> (z, d) in Named(list)
  }

  /** An audit under the lock shows the clearances of the ledger. */
  ghost predicate ShowsLedger(zones: map<Zone, ZoneView>, l: Ledger) {
    zones.Keys == l.occupancy.Keys && forall z :: z in zones ==> zones[z].holders == Holders(l, z)
  }

  lemma NamedAreHeld(l: Ledger, zones: map<Zone, ZoneView>, list: seq<Return>)
    requires Mirrored(l) && ShowsLedger(zones, l) && NamesSome(zones, list)
    ensures EachHeldOnce(l, list)
  {
    forall k | k in Named(list) ensures k in l.byZone {
      assert k == (k.0, k.1);
    }
    ListedAreHeldOnce(l, list);
  }

  lemma NamedAreListed(l: Ledger, zones: map<Zone, ZoneView>, list: seq<Return>)
    requires ShowsLedger(zones, l) && NamesSome(zones, list)
    ensures Named(list) <= l.byZone.Keys
  {
    forall k | k in Named(list) ensures k in l.byZone {
      assert k == (k.0, k.1);
    }
  }

  lemma AuditLists(l: Ledger, zones: map<Zone, ZoneView>, list: seq<Return>)
    requires ShowsLedger(zones, l) && NamesAll(zones, list)
    requires forall z, d :: (z, d) in l.byZone ==> z in l.occupancy
    ensures Lists(l, list)
  {
    forall k ensures k in Named(list) <==> k in l.byZone {
      assert k == (k.0, k.1);
    }
  }

  /** What a reset comes to, cut short or not: guarded releases of clearances there were, none of
      them refused, and what is left is what was lost or not reached. */
  ghost predicate Released(l: Ledger, list: seq<Return>, after: Ledger) {
    && Consistent(after) && SameZones(l, after)
    && after == Releases(l, list) && NoneRefused(l, list)
    && after.byDrone == l.byDrone - Returned(list)
  }

  lemma ReleasedBy(l: Ledger, zones: map<Zone, ZoneView>, list: seq<Return>)
    requires Consistent(l) && ShowsLedger(zones, l) && NamesSome(zones, list)
    ensures Released(l, list, Releases(l, list))
  {
    NamedAreHeld(l, zones, list);
    ReleasesDrop(l, list);
    HeldAreNotRefused(l, list);
    ReleasesSameZones(l, list);
    ReleasesKeep(l, list);
  }

  /** The read of the state that follows an answered release returns. */
  predicate ReadsOn(z: Zone, d: Drone, ending: (Zone, Drone) -> Ending, readable: (Zone, Drone) -> bool) {
    ending(z, d) == Answered ==> readable(z, d)
  }

  /** Every line ended as its own release did, every read but the last returned, and the list is
      whole exactly if the last one did too. */
  ghost predicate AsEnded(
    list: seq<Return>, ending: (Zone, Drone) -> Ending, readable: (Zone, Drone) -> bool, done: bool)
  {
    && (forall i :: 0 <= i < |list| ==> list[i].ending == ending(list[i].zone, list[i].drone))
    && (forall i :: 0 <= i < |list| - 1 ==> ReadsOn(list[i].zone, list[i].drone, ending, readable))
    && (done <==> list != [] ==>
          ReadsOn(list[|list| - 1].zone, list[|list| - 1].drone, ending, readable))
  }

  lemma EndedGrows(
      list: seq<Return>, more: seq<Return>,
      ending: (Zone, Drone) -> Ending, readable: (Zone, Drone) -> bool, done: bool)
    requires AsEnded(list, ending, readable, true) && AsEnded(more, ending, readable, done)
    ensures AsEnded(list + more, ending, readable, done)
  {
  }

  lemma OneEnded(z: Zone, d: Drone, ending: (Zone, Drone) -> Ending, readable: (Zone, Drone) -> bool)
    ensures AsEnded([Return(z, d, ending(z, d))], ending, readable, ReadsOn(z, d, ending, readable))
  {
  }

  /** No read after an answered release of these clearances raises. */
  ghost predicate AllReadOn(
    held: map<(Zone, Drone), int>, ending: (Zone, Drone) -> Ending, readable: (Zone, Drone) -> bool)
  {
    forall z, d :: (z, d) in held ==> ReadsOn(z, d, ending, readable)
  }

  lemma DoneIffReadOn(
      l: Ledger, list: seq<Return>, ending: (Zone, Drone) -> Ending, readable: (Zone, Drone) -> bool, done: bool)
    requires AsEnded(list, ending, readable, done) && Named(list) <= l.byZone.Keys && (done ==> Lists(l, list))
    ensures done <==> AllReadOn(l.byZone, ending, readable)
  {
    if done {
      forall z, d | (z, d) in l.byZone ensures ReadsOn(z, d, ending, readable) {
        var i := NamedIs(list, z, d);
      }
    } else {
      NamedAt(list, |list| - 1);
    }
  }

  /** After a reset run to its end a drone still holds its clearance exactly if its own release
      was lost. */
  ghost predicate LeavesLost(l: Ledger, after: Ledger, ending: (Zone, Drone) -> Ending) {
    forall d :: d in after.byDrone <==> d in l.byDrone && ending(l.byDrone[d].zone, d) == ErroredLost
  }

  lemma LostAreLeft(
      l: Ledger, list: seq<Return>, after: Ledger,
      ending: (Zone, Drone) -> Ending, readable: (Zone, Drone) -> bool)
    requires Consistent(l) && Lists(l, list) && AsEnded(list, ending, readable, true)
    requires after.byDrone == l.byDrone - Returned(list)
    ensures LeavesLost(l, after, ending)
  {
    ListedAreHeldOnce(l, list);
    forall d | d in l.byDrone ensures d in Returned(list) <==> ending(l.byDrone[d].zone, d) != ErroredLost {
      ReturnedOf(list, d);
      var i := NamedIs(list, l.byDrone[d].zone, d);
    }
  }

  /** No release of these clearances is lost. */
  ghost predicate NoneAreLost(held: map<(Zone, Drone), int>, ending: (Zone, Drone) -> Ending) {
    forall z, d :: (z, d) in held ==> ending(z, d) != ErroredLost
  }

  lemma FreeIffNoneLost(l: Ledger, after: Ledger, ending: (Zone, Drone) -> Ending)
    requires Mirrored(l) && Consistent(after) && LeavesLost(l, after, ending)
    ensures AllFree(after) <==> NoneAreLost(l.byZone, ending)
  {
    FreeIff(after);
    if NoneAreLost(l.byZone, ending) {
      forall d ensures d !in after.byDrone {
        assert d in l.byDrone ==> (l.byDrone[d].zone, d) in l.byZone;
      }
    } else {
      var z, d :| (z, d) in l.byZone && ending(z, d) == ErroredLost;
      assert d in after.byDrone;
    }
  }

  /** The tables behind the routes, and the routes that drive them. */
  class Desk {
    var ledger: Ledger

    constructor (l: Ledger)
      ensures ledger == l
    {
      ledger := l;
    }

    /** The reset's releases of one zone's holders, each with its own ending.  A release that is
        answered is followed by a read of the state; if that read raises, the reset is over. */
    method ReleaseZone(z: Zone, holders: set<Drone>, ending: (Zone, Drone) -> Ending, readable: (Zone, Drone) -> bool)
      returns (list: seq<Return>, done: bool)
      modifies this
      ensures ledger == Releases(old(ledger), list) && EachOnce(list)
      ensures AsEnded(list, ending, readable, done)
      ensures forall y, d :: (y, d) in Named(list) ==> y == z && d in holders
      ensures done ==> forall d :: d in holders ==> (z, d) in Named(list)
    {
      list, done := [], true;
      var rest := holders;
      while done && rest != {}
        invariant rest <= holders && ledger == Releases(old(ledger), list)
        invariant NamesHolders(list, z, holders - rest) && AsEnded(list, ending, readable, done)
      {
        var d :| d in rest;
        var r := Return(z, d, ending(z, d));
        NameOne(list, z, holders - rest, r);
        OneEnded(z, d, ending, readable);
        EndedGrows(list, [r], ending, readable, ReadsOn(z, d, ending, readable));
        assert (list + [r])[..|list|] == list;
        assert holders - (rest - {d}) == holders - rest + {d};
        ledger := ReturnNext(ledger, r);
        list, rest := list + [r], rest - {d};
        done := r.ending != Answered || readable(z, d);
      }
    }

    /** The loops of the reset: a guarded release for each holder the audit showed, up to a read
        that raises. */
    method ReleaseListed(
        zones: map<Zone, ZoneView>, ending: (Zone, Drone) -> Ending, readable: (Zone, Drone) -> bool)
      returns (list: seq<Return>, done: bool)
      modifies this
      ensures ledger == Releases(old(ledger), list) && NamesSome(zones, list)
      ensures AsEnded(list, ending, readable, done)
      ensures done ==> NamesAll(zones, list)
    {
      list, done := [], true;
      var todo := zones.Keys;
      while done && todo != {}
        invariant todo <= zones.Keys && ledger == Releases(old(ledger), list)
        invariant NamesSome(zones, list) && NamesNone(list, todo) && AsEnded(list, ending, readable, done)
        invariant done ==> forall z, d :: z in zones.Keys - todo && d in zones[z].holders ==> (z, d) in Named(list)
      {
        var z :| z in todo;
        var more;
        more, done := ReleaseZone(z, zones[z].holders, ending, readable);
        ReleasesConcat(old(ledger), list, more);
        NextZone(zones, list, more, todo, z);
        EndedGrows(list, more, ending, readable, done);
        list, todo := list + more, todo - {z};
      }
    }

    /** Give every clearance back through the guarded release, unless a read in between raises.
        What is left is what was lost or not reached. */
    method Reset(ending: (Zone, Drone) -> Ending, readable: (Zone, Drone) -> bool)
      returns (list: seq<Return>, done: bool)
      requires Consistent(ledger)
      modifies this
      ensures Released(old(ledger), list, ledger) && AsEnded(list, ending, readable, done)
      ensures done <==> AllReadOn(old(ledger).byZone, ending, readable)
      ensures done ==> Lists(old(ledger), list) && LeavesLost(old(ledger), ledger, ending)
      ensures done ==> (AllFree(ledger) <==> NoneAreLost(old(ledger).byZone, ending))
    {
      var l := ledger;
      var zones, _, _ := Audit(_ => l, _ => 0);
      list, done := ReleaseListed(zones, ending, readable);
      ReleasedBy(l, zones, list);
      if done {
        AuditLists(l, zones, list);
        LostAreLeft(l, list, ledger, ending, readable);
        FreeIffNoneLost(l, ledger, ending);
      }
      NamedAreListed(l, zones, list);
      DoneIffReadOn(l, list, ending, readable, done);
    }

    /** Ask for one zone from many drones at once, every clearance given back first.
        `asks` is the order their transactions took effect in, whatever it was. */
    method Contend(
        z: Zone, asks: seq<Ask>, at: int, ending: (Zone, Drone) -> Ending, readable: (Zone, Drone) -> bool)
      returns (outcome: Outcome, ghost list: seq<Return>, ghost reset: Ledger)
      requires Consistent(ledger) && Distinct(asks)
      modifies this
      ensures Released(old(ledger), list, reset) && Consistent(ledger)
      ensures outcome.Raised? || outcome.NoZone? ==> ledger == reset
      ensures outcome.Raised? <==> !AllReadOn(old(ledger).byZone, ending, readable)
      ensures !outcome.Raised? ==> LeavesLost(old(ledger), reset, ending)
      ensures !outcome.Raised? ==> (AllFree(reset) <==> NoneAreLost(old(ledger).byZone, ending))
      ensures !outcome.Raised? ==> (outcome.NoZone? <==> z !in old(ledger).occupancy)
      ensures outcome.Contended? ==>
                && outcome.granted + outcome.refused + outcome.errors == |asks| && outcome.errors == Unanswered(asks)
                && outcome.granted == |outcome.heard| && outcome.winners == Holders(ledger, z)
                && z in reset.occupancy && Report(reset, z, asks, ledger, outcome.heard)
    {
      var returns_, done := Reset(ending, readable);
      list, reset := returns_, ledger;
      if !done {
        return Raised, list, reset;
      }
      if z !in ledger.occupancy {
        return NoZone, list, reset;
      }
      outcome := AskZone(z, asks, at);
    }

    /** The asks for one zone: the winners are read back from the ledger, the grants counted from
        the answers. */
    method AskZone(z: Zone, asks: seq<Ask>, at: int) returns (outcome: Outcome)
      requires Consistent(ledger) && Distinct(asks) && z in ledger.occupancy
      modifies this
      ensures Consistent(ledger) && outcome.Contended?
      ensures outcome.granted + outcome.refused + outcome.errors == |asks| && outcome.errors == Unanswered(asks)
      ensures outcome.granted == |outcome.heard| && outcome.winners == Holders(ledger, z)
      ensures Report(old(ledger), z, asks, ledger, outcome.heard)
    {
      ContentionReport(ledger, z, asks, at);
      AskedKeeps(ledger, z, asks, at);
      HeardAreWinners(ledger, z, asks, at);
      var granted, refused, errors, heard := AskAll(z, asks, at);
      outcome := Contended(granted, refused, errors, heard, Holders(ledger, z));
    }

    /** The asks themselves, and the counting of their answers. */
    method AskAll(z: Zone, asks: seq<Ask>, at: int)
      returns (granted: nat, refused: nat, errors: nat, heard: set<Drone>)
      modifies this
      ensures ledger == Asked(old(ledger), z, asks, at)
      ensures granted == HeardCount(old(ledger), z, asks, at) && heard == Heard(old(ledger), z, asks, at)
      ensures granted + refused + errors == |asks| && errors == Unanswered(asks)
    {
      granted, refused, errors, heard := 0, 0, 0, {};
      for k := 0 to |asks|
        invariant ledger == Asked(old(ledger), z, asks[..k], at)
        invariant granted == HeardCount(old(ledger), z, asks[..k], at)
        invariant heard == Heard(old(ledger), z, asks[..k], at)
        invariant granted + refused + errors == k && errors == Unanswered(asks[..k])
      {
        var ask := asks[k];
        assert asks[..k + 1][..k] == asks[..k];
        if ask.ending != Answered {
          errors := errors + 1;
        } else if CanGrant(ledger, z, ask.drone) {
          granted, heard := granted + 1, heard + {ask.drone};
        } else {
          refused := refused + 1;
        }
        ledger := AskNext(ledger, z, ask, at);
      }
      assert asks[..|asks|] == asks;
    }
  }

  /** What the contention route answers: an error if the reset was cut short, a refusal for an
      unknown zone, or its counts. */
  datatype Outcome =
    | Raised
    | NoZone
    | Contended(granted: nat, refused: nat, errors: nat, heard: set<Drone>, winners: set<Drone>)

  /** The list names these holders of one zone, each once. */
  ghost predicate NamesHolders(list: seq<Return>, z: Zone, holders: set<Drone>) {
    EachOnce(list) && forall y, d :: (y, d) in Named(list) <==> y == z && d in holders
  }

  lemma NameOne(list: seq<Return>, z: Zone, holders: set<Drone>, r: Return)
    requires NamesHolders(list, z, holders) && r.zone == z && r.drone !in holders
    ensures NamesHolders(list + [r], z, holders + {r.drone})
  {
    assert (list + [r])[..|list|] == list;
  }

  /** No clearance of these zones is named. */
  ghost predicate NamesNone(list: seq<Return>, todo: set<Zone>) {
    forall z, d :: (z, d) in Named(list) ==> z !in todo
  }

  lemma NextZone(zones: map<Zone, ZoneView>, list: seq<Return>, more: seq<Return>, todo: set<Zone>, z: Zone)
    requires z in todo && z in zones && NamesSome(zones, list) && NamesNone(list, todo) && EachOnce(more)
    requires forall y, d :: (y, d) in Named(more) ==> y == z && d in zones[z].holders
    ensures NamesSome(zones, list + more) && NamesNone(list + more, todo - {z})
  {
    ReleasesConcat(EMPTY, list, more);
    forall k | k in Named(more) ensures k !in Named(list) {
      assert k == (k.0, k.1);
    }
  }

  lemma {:induction false} ReleasesConcat(l: Ledger, a: seq<Return>, b: seq<Return>)
    ensures Releases(l, a + b) == Releases(Releases(l, a), b)
    ensures Named(a + b) == Named(a) + Named(b)
    ensures EachOnce(a) && EachOnce(b) && Named(a) !! Named(b) ==> EachOnce(a + b)
  {
    if b == [] {
      assert a + b == a;
    } else {
      var n := |b| - 1;
      ReleasesConcat(l, a, b[..n]);
      assert (a + b)[..|a + b| - 1] == a + b[..n];
    }
  }
}
