/** The producer's pacing: fractions of an event carried from turn to turn, and assets taken
in rotation. */
module Pacing {
  import opened Options
  import opened Quotients

  // ----- settings

  /** The controls the dashboard sets; after the first settings it takes over, a rate and a fleet
      are one at least, whatever they started with. */
  class LiveSettings {
    var eventsPerSec: int
    var entities: int
    var outlierPercent: real
    var paused: bool

    constructor (eventsPerSec: int, entities: int, outlierPercent: real)
      ensures this.eventsPerSec == eventsPerSec && this.entities == entities
      ensures this.outlierPercent == outlierPercent && !paused
    {
      this.eventsPerSec, this.entities := eventsPerSec, entities;
      this.outlierPercent, paused := outlierPercent, false;
    }

    /** A missing field keeps its value. */
    method Apply(rate: Option<int>, fleet: Option<int>, outliers: Option<real>, pause: Option<bool>)
      modifies this
      ensures eventsPerSec >= 1 && entities >= 1
      ensures eventsPerSec == AtLeastOne(if rate.Some? then rate.value else old(eventsPerSec))
      ensures entities == AtLeastOne(if fleet.Some? then fleet.value else old(entities))
      ensures outlierPercent == if outliers.Some? then outliers.value else old(outlierPercent)
      ensures paused == if pause.Some? then pause.value else old(paused)
    {
      eventsPerSec := AtLeastOne(if rate.Some? then rate.value else eventsPerSec);
      entities := AtLeastOne(if fleet.Some? then fleet.value else entities);
      outlierPercent := if outliers.Some? then outliers.value else outlierPercent;
      paused := if pause.Some? then pause.value else paused;
    }
  }

  function AtLeastOne(n: int): (r: int)
    ensures r >= n && r >= 1 && (r == n || r == 1)
  {
    if n > 1 then n else 1
  }

  // ----- turns

  /** What a turn meets: the settings and the clock.  `worth` is the rate times the period. */
  datatype Turn = Turn(worth: real, fleet: nat, paused: bool, start: real)

  datatype Event = Event(asset: nat, stamp: real)

  datatype State = State(owed: real, ptr: nat, sent: seq<Event>)

  const START: State := State(0.0, 0, [])

  /** As many assets as asked for, up to what the arrays hold. */
  function Fleet(fleet: nat, most: nat): (n: nat)
    ensures n <= fleet && n <= most && (n == fleet || n == most)
  {
    if fleet <= most then fleet else most
  }

  function EventAt(ptr: nat, k: nat, fleet: nat, start: real, step: real): Event
    requires fleet > 0
  {
    Event((ptr + k) % fleet, start + k as real * step)
  }

  /** The events of one turn: assets in rotation, stamps spread over the period. */
  function Batch(ptr: nat, count: nat, fleet: nat, start: real, period: real): (batch: seq<Event>)
    requires fleet > 0 && count > 0
    ensures |batch| == count
  {
    var step := period / count as real;
    seq(count, k requires 0 <= k < count => EventAt(ptr, k, fleet, start, step))
  }

  /** Settings a turn can meet. */
  ghost predicate Usable(t: Turn, most: nat) { t.worth >= 0.0 && t.fleet > 0 && most > 0 }

  function Due(s: State, t: Turn): int { (s.owed + t.worth).Floor }

  function Next(s: State, t: Turn, period: real, most: nat): State
    requires Usable(t, most)
  {
    var due := Due(s, t);
    if t.paused then s
    else if due <= 0 then s.(owed := s.owed + t.worth - due as real)
    else
      var n := Fleet(t.fleet, most);
      State(s.owed + t.worth - due as real, (s.ptr + due) % n,
            s.sent + Batch(s.ptr, due, n, t.start, period))
  }

  ghost predicate AllUsable(turns: seq<Turn>, most: nat) {
    forall i :: 0 <= i < |turns| ==> Usable(turns[i], most)
  }

  function Run(s: State, turns: seq<Turn>, period: real, most: nat): State
    requires AllUsable(turns, most)
  {
    if turns == [] then s
    else
      var n := |turns| - 1;
      Next(Run(s, turns[..n], period, most), turns[n], period, most)
  }

  class Producer {
    const period: real
    const most: nat
    var owed: real
    var ptr: nat
    var sent: seq<Event>

    ghost function Now(): State
      reads this
    {
      State(owed, ptr, sent)
    }

    constructor (period: real, most: nat)
      ensures Now() == START && this.period == period && this.most == most
    {
      this.period, this.most := period, most;
      owed, ptr, sent := 0.0, 0, [];
    }

    method TakeTurn(rate: nat, fleet: nat, paused: bool, start: real)
      requires fleet > 0 && most > 0 && period >= 0.0 && 0.0 <= owed < 1.0
      modifies this
      ensures Now() == Next(old(Now()), Turn(rate as real * period, fleet, paused, start), period, most)
      ensures 0.0 <= owed < 1.0 && (paused ==> Now() == old(Now()))
    {
      if paused {
        return;
      }
      var n, worth := Fleet(fleet, most), rate as real * period;
      Product(rate as real, period);
      Spend(Turn(worth, fleet, false, start), n);
    }

    /** Send what the turn owes and carry the rest. */
    method Spend(t: Turn, n: nat)
      requires Usable(t, most) && !t.paused && n == Fleet(t.fleet, most) && 0.0 <= owed < 1.0
      modifies this
      ensures Now() == Next(old(Now()), t, period, most) && 0.0 <= owed < 1.0
    {
      owed := owed + t.worth;
      var batch: nat := owed.Floor;
      owed := owed - batch as real;
      if batch > 0 {
        var more := Compose(ptr, batch, n, t.start, period);
        ptr := (ptr + batch) % n;
        sent := sent + more;
      }
    }
  }

  method Compose(ptr: nat, count: nat, fleet: nat, start: real, period: real) returns (batch: seq<Event>)
    requires fleet > 0 && count > 0
    ensures batch == Batch(ptr, count, fleet, start, period)
  {
    batch := [];
    var step := period / count as real;
    for k := 0 to count
      invariant batch == Batch(ptr, count, fleet, start, period)[..k]
    {
      ghost var whole := Batch(ptr, count, fleet, start, period);
      assert whole[..k + 1] == whole[..k] + [whole[k]];
      batch := batch + [EventAt(ptr, k, fleet, start, step)];
    }
  }

  lemma Product(a: real, b: real)
    requires a >= 0.0 && b >= 0.0
    ensures a * b >= 0.0
  {
  }

  // ----- the pace

  /** The rate times the period, over the turns that were not paused. */
  function Accrued(turns: seq<Turn>): real {
    if turns == [] then 0.0
    else
      var n := |turns| - 1;
      Accrued(turns[..n]) + if turns[n].paused then 0.0 else turns[n].worth
  }

  /** However rates and pauses change, the events sent are the whole part of what has accrued
      and the carry is its fraction. */
  lemma {:induction false} PaceIsExact(turns: seq<Turn>, period: real, most: nat)
    requires AllUsable(turns, most)
    ensures
      var s := Run(START, turns, period, most);
      && |s.sent| == Accrued(turns).Floor
      && s.owed == Accrued(turns) - |s.sent| as real
      && 0.0 <= s.owed < 1.0
  {
    if turns != [] {
      var n := |turns| - 1;
      PaceIsExact(turns[..n], period, most);
      NextPace(Run(START, turns[..n], period, most), turns[n], period, most);
      WholePart(Accrued(turns), |Run(START, turns, period, most).sent|,
                Run(START, turns, period, most).owed);
    }
  }

  lemma WholePart(x: real, n: int, rest: real)
    requires rest == x - n as real && 0.0 <= rest < 1.0
    ensures x.Floor == n
  {
    assert x.Floor as real <= x < x.Floor as real + 1.0;
  }

  /** A turn that is not paused moves what it owes into what it sent, and keeps a fraction. */
  lemma NextPace(s: State, t: Turn, period: real, most: nat)
    requires Usable(t, most) && 0.0 <= s.owed < 1.0
    ensures
      var u := Next(s, t, period, most);
      && 0.0 <= u.owed < 1.0
      && u.owed + |u.sent| as real ==
         s.owed + |s.sent| as real + if t.paused then 0.0 else t.worth
  {
    var x := s.owed + t.worth;
    assert x.Floor as real <= x < x.Floor as real + 1.0;
  }

  // ----- the rotation

  /** The events of a stretch name assets in rotation from `ptr`. */
  ghost predicate Rotates(events: seq<Event>, ptr: nat, fleet: nat)
    requires fleet > 0
  {
    forall k :: 0 <= k < |events| ==> events[k].asset == (ptr + k) % fleet
  }

  ghost predicate SameFleet(turns: seq<Turn>, most: nat, fleet: nat) {
    forall i :: 0 <= i < |turns| ==> Fleet(turns[i].fleet, most) == fleet
  }

  lemma ModAdd(a: nat, b: nat, n: nat)
    requires n > 0
    ensures (a % n + b) % n == (a + b) % n
  {
    var q, p := a / n, (a % n + b) / n;
    assert a == q * n + a % n;
    assert a % n + b == p * n + (a % n + b) % n;
    assert a + b == (a + b) / n * n + (a + b) % n;
    assert q * n + p * n == (q + p) * n;
    QuotientUnique(q + p, (a % n + b) % n, (a + b) / n, (a + b) % n, n);
  }

  lemma BatchRotates(ptr: nat, count: nat, fleet: nat, start: real, period: real)
    requires fleet > 0 && count > 0
    ensures Rotates(Batch(ptr, count, fleet, start, period), ptr, fleet)
  {
  }

  /** The events one turn adds. */
  function Added(s: State, t: Turn, period: real, most: nat): seq<Event>
    requires Usable(t, most)
  {
    if t.paused || Due(s, t) <= 0 then []
    else Batch(s.ptr, Due(s, t), Fleet(t.fleet, most), t.start, period)
  }

  lemma TurnRotates(s: State, t: Turn, period: real, most: nat)
    requires Usable(t, most)
    ensures
      var u, n, added := Next(s, t, period, most), Fleet(t.fleet, most), Added(s, t, period, most);
      && u.sent == s.sent + added && Rotates(added, s.ptr, n)
      && u.ptr % n == (s.ptr + |added|) % n
  {
    var n := Fleet(t.fleet, most);
    if !t.paused && Due(s, t) > 0 {
      BatchRotates(s.ptr, Due(s, t), n, t.start, period);
      ModAdd(s.ptr + Due(s, t), 0, n);
    }
  }

  /** Adding to numbers of one remainder gives numbers of one remainder. */
  lemma PtrOn(ptr: nat, a: nat, next: nat, b: nat, fleet: nat)
    requires fleet > 0 && next % fleet == (ptr + a) % fleet
    ensures (next + b) % fleet == (ptr + (a + b)) % fleet
  {
    var r := next % fleet;
    AddTo(next, r, b, fleet);
    AddTo(ptr + a, r, b, fleet);
  }

  lemma AddTo(x: nat, r: nat, b: nat, n: nat)
    requires n > 0 && x % n == r
    ensures (x + b) % n == (r + b) % n
  {
    ModAdd(x, b, n);
  }

  /** Over turns with one fleet size, whatever came before, the events continue one rotation. */
  lemma {:induction false} TurnsRotate(s: State, turns: seq<Turn>, period: real, most: nat, fleet: nat)
    returns (more: seq<Event>)
    requires AllUsable(turns, most) && SameFleet(turns, most, fleet) && fleet > 0
    ensures
      var t := Run(s, turns, period, most);
      t.sent == s.sent + more && t.ptr % fleet == (s.ptr + |more|) % fleet
    ensures Rotates(more, s.ptr, fleet)
  {
    more := [];
    if turns != [] {
      var n := |turns| - 1;
      var before := TurnsRotate(s, turns[..n], period, most, fleet);
      var u := Run(s, turns[..n], period, most);
      var added := Added(u, turns[n], period, most);
      assert Fleet(turns[n].fleet, most) == fleet;
      TurnRotates(u, turns[n], period, most);
      RotatesOn(before, added, s.ptr, u.ptr, fleet);
      PtrOn(s.ptr, |before|, u.ptr, |added|, fleet);
      more := before + added;
      assert s.sent + before + added == s.sent + more;
    }
  }

  lemma RotatesOn(a: seq<Event>, b: seq<Event>, ptr: nat, next: nat, fleet: nat)
    requires fleet > 0 && Rotates(a, ptr, fleet) && Rotates(b, next, fleet)
    requires next % fleet == (ptr + |a|) % fleet
    ensures Rotates(a + b, ptr, fleet)
  {
    forall k | 0 <= k < |a + b| ensures (a + b)[k].asset == (ptr + k) % fleet {
      if k >= |a| {
        PtrOn(ptr, |a|, next, k - |a|, fleet);
        assert |a| + (k - |a|) == k;
      }
    }
  }

  function Tally(events: seq<Event>, asset: nat): nat {
    if events == [] then 0
    else Tally(events[..|events| - 1], asset) + if events[|events| - 1].asset == asset then 1 else 0
  }

  /** How many numbers below `x` leave this remainder. */
  function Below(x: nat, asset: nat, fleet: nat): int
    requires asset < fleet
  {
    (x + fleet - 1 - asset) / fleet
  }

  lemma BelowNext(x: nat, asset: nat, fleet: nat)
    requires asset < fleet
    ensures Below(x + 1, asset, fleet) == Below(x, asset, fleet) + if x % fleet == asset then 1 else 0
  {
    var q, r := x / fleet, x % fleet;
    var y := x + fleet - 1 - asset;
    assert x == q * fleet + r;
    assert y == y / fleet * fleet + y % fleet;
    assert y + 1 == (y + 1) / fleet * fleet + (y + 1) % fleet;
    assert (q + 1) * fleet == q * fleet + fleet;
    var before := r + fleet - 1 - asset;
    if before >= fleet {
      QuotientUnique(y / fleet, y % fleet, q + 1, before - fleet, fleet);
    } else {
      QuotientUnique(y / fleet, y % fleet, q, before, fleet);
    }
    if before + 1 >= fleet {
      QuotientUnique((y + 1) / fleet, (y + 1) % fleet, q + 1, before + 1 - fleet, fleet);
    } else {
      QuotientUnique((y + 1) / fleet, (y + 1) % fleet, q, before + 1, fleet);
    }
  }

  lemma {:induction false} TallyIs(events: seq<Event>, ptr: nat, asset: nat, fleet: nat)
    requires asset < fleet && Rotates(events, ptr, fleet)
    ensures Tally(events, asset) == Below(ptr + |events|, asset, fleet) - Below(ptr, asset, fleet)
  {
    if events != [] {
      var n := |events| - 1;
      TallyIs(events[..n], ptr, asset, fleet);
      BelowNext(ptr + n, asset, fleet);
    }
  }

  lemma BelowSpan(ptr: nat, count: nat, asset: nat, fleet: nat)
    requires asset < fleet
    ensures
      var span := Below(ptr + count, asset, fleet) - Below(ptr, asset, fleet);
      count / fleet <= span <= count / fleet + 1
  {
    var y := ptr + fleet - 1 - asset;
    var a, b, c := y / fleet, (y + count) / fleet, count / fleet;
    assert y == a * fleet + y % fleet && count == c * fleet + count % fleet;
    assert y + count == b * fleet + (y + count) % fleet;
    assert (a + c) * fleet == a * fleet + c * fleet && (a + c + 1) * fleet == (a + c) * fleet + fleet;
    var rest := y % fleet + count % fleet;
    if rest >= fleet {
      QuotientUnique(b, (y + count) % fleet, a + c + 1, rest - fleet, fleet);
    } else {
      QuotientUnique(b, (y + count) % fleet, a + c, rest, fleet);
    }
  }

  /** While the fleet keeps its size, from any point on, every asset has had the whole share or
      one more, so any two differ by one at most; and no asset outside the fleet is named. */
  lemma SharesAreEven(s: State, turns: seq<Turn>, period: real, most: nat, fleet: nat, asset: nat, other: nat)
    returns (more: seq<Event>)
    requires AllUsable(turns, most) && SameFleet(turns, most, fleet) && asset < fleet && other < fleet
    ensures Run(s, turns, period, most).sent == s.sent + more
    ensures forall k :: 0 <= k < |more| ==> more[k].asset < fleet
    ensures |more| / fleet <= Tally(more, asset) <= |more| / fleet + 1
    ensures -1 <= Tally(more, asset) - Tally(more, other) <= 1
  {
    more := TurnsRotate(s, turns, period, most, fleet);
    TallyIs(more, s.ptr, asset, fleet);
    TallyIs(more, s.ptr, other, fleet);
    BelowSpan(s.ptr, |more|, asset, fleet);
    BelowSpan(s.ptr, |more|, other, fleet);
  }

  ghost predicate Held(events: seq<Event>, most: nat) {
    forall k :: 0 <= k < |events| ==> events[k].asset < most
  }

  lemma BatchIsHeld(ptr: nat, count: nat, fleet: nat, start: real, period: real)
    requires fleet > 0 && count > 0
    ensures Held(Batch(ptr, count, fleet, start, period), fleet)
  {
  }

  /** Whatever the fleet does, every event names an asset the fleet's arrays hold. */
  lemma {:induction false} AssetsAreHeld(turns: seq<Turn>, period: real, most: nat)
    requires AllUsable(turns, most)
    ensures Held(Run(START, turns, period, most).sent, most)
  {
    if turns != [] {
      var n := |turns| - 1;
      AssetsAreHeld(turns[..n], period, most);
      var s, t := Run(START, turns[..n], period, most), turns[n];
      if !t.paused && Due(s, t) > 0 {
        BatchIsHeld(s.ptr, Due(s, t), Fleet(t.fleet, most), t.start, period);
      }
    }
  }

  // ----- stamps

  ghost predicate Increasing(events: seq<Event>) {
    forall i, j :: 0 <= i < j < |events| ==> events[i].stamp < events[j].stamp
  }

  lemma StepOrder(k: nat, m: nat, count: nat, period: real)
    requires k < m <= count && period > 0.0
    ensures k as real * (period / count as real) < m as real * (period / count as real) <= period
  {
    var step := period / count as real;
    assert step > 0.0 && count as real * step == period;
    assert (m - k) as real * step > 0.0;
    assert m as real * step == k as real * step + (m - k) as real * step;
    assert (count - m) as real * step >= 0.0;
    assert count as real * step == m as real * step + (count - m) as real * step;
  }

  /** A batch's stamps rise from the start of its turn. */
  lemma BatchStamps(ptr: nat, count: nat, fleet: nat, start: real, period: real)
    requires fleet > 0 && count > 0 && period > 0.0
    ensures
      var batch := Batch(ptr, count, fleet, start, period);
      Increasing(batch) && batch[0].stamp == start
  {
    var batch := Batch(ptr, count, fleet, start, period);
    forall i, j | 0 <= i < j < count ensures batch[i].stamp < batch[j].stamp {
      StepOrder(i, j, count, period);
    }
  }

  /** Neighbouring stamps are the period's share of one event apart. */
  lemma StampSpacing(ptr: nat, count: nat, fleet: nat, start: real, period: real, k: nat)
    requires fleet > 0 && k + 1 < count
    ensures
      var batch := Batch(ptr, count, fleet, start, period);
      (batch[k + 1].stamp - batch[k].stamp) * count as real == period
  {
    var step := period / count as real;
    assert (k + 1) as real * step == k as real * step + step;
    assert step * count as real == period;
  }

  /** And all of them fall within its period. */
  lemma BatchRange(ptr: nat, count: nat, fleet: nat, start: real, period: real, k: nat)
    requires fleet > 0 && k < count && period > 0.0
    ensures start <= Batch(ptr, count, fleet, start, period)[k].stamp < start + period
  {
    StepOrder(k, count, count, period);
    if k > 0 {
      StepOrder(0, k, count, period);
    }
  }

  /** No turn that sends starts at or before the last stamp sent. */
  ghost predicate InStep(turns: seq<Turn>, period: real, most: nat)
    requires AllUsable(turns, most)
  {
    turns != [] ==>
      var n := |turns| - 1;
      var s := Run(START, turns[..n], period, most);
      && InStep(turns[..n], period, most)
      && (Added(s, turns[n], period, most) != [] && s.sent != [] ==>
            s.sent[|s.sent| - 1].stamp < turns[n].start)
  }

  lemma JoinIff(a: seq<Event>, b: seq<Event>)
    requires b != [] && Increasing(b)
    ensures Increasing(a + b) <==> Increasing(a) && (a != [] ==> a[|a| - 1].stamp < b[0].stamp)
  {
    var whole := a + b;
    if Increasing(whole) {
      assert forall i :: 0 <= i < |a| ==> whole[i] == a[i];
      assert a != [] ==> whole[|a| - 1].stamp < whole[|a|].stamp;
    }
  }

  /** Whatever the clock does, every event is stamped later than the one before exactly when no
      turn that sends starts at or before the last stamp sent. */
  lemma {:induction false} StampsIncreaseIff(turns: seq<Turn>, period: real, most: nat)
    requires AllUsable(turns, most) && period > 0.0
    ensures Increasing(Run(START, turns, period, most).sent) <==> InStep(turns, period, most)
  {
    if turns != [] {
      var n := |turns| - 1;
      var s, t := Run(START, turns[..n], period, most), turns[n];
      StampsIncreaseIff(turns[..n], period, most);
      TurnRotates(s, t, period, most);
      var added := Added(s, t, period, most);
      if added != [] {
        BatchStamps(s.ptr, Due(s, t), Fleet(t.fleet, most), t.start, period);
        JoinIff(s.sent, added);
      }
    }
  }

  /** Turns start at least a period apart, as the sleep at a turn's end makes them on a clock that
      is never set back. */
  ghost predicate Spaced(turns: seq<Turn>, period: real) {
    forall i :: 0 <= i < |turns| - 1 ==> turns[i].start + period <= turns[i + 1].start
  }

  /** Every event is stamped before this. */
  ghost predicate StampedBy(events: seq<Event>, end: real) {
    forall k :: 0 <= k < |events| ==> events[k].stamp < end
  }

  /** So turns kept apart by the sleep are in step. */
  lemma {:induction false} SleepKeepsInStep(turns: seq<Turn>, period: real, most: nat)
    requires AllUsable(turns, most) && period > 0.0 && Spaced(turns, period)
    ensures InStep(turns, period, most)
    ensures turns != [] ==> StampedBy(Run(START, turns, period, most).sent, turns[|turns| - 1].start + period)
  {
    if turns != [] {
      var n := |turns| - 1;
      SleepKeepsInStep(turns[..n], period, most);
      var s, t := Run(START, turns[..n], period, most), turns[n];
      assert n > 0 ==> turns[n - 1].start + period <= turns[n - 1 + 1].start;
      assert StampedBy(s.sent, t.start);
      TurnRotates(s, t, period, most);
      AddedStampedBy(s, t, period, most);
    }
  }

  lemma AddedStampedBy(s: State, t: Turn, period: real, most: nat)
    requires Usable(t, most) && period > 0.0
    ensures StampedBy(Added(s, t, period, most), t.start + period)
  {
    var added := Added(s, t, period, most);
    forall k | 0 <= k < |added| ensures added[k].stamp < t.start + period {
      BatchRange(s.ptr, Due(s, t), Fleet(t.fleet, most), t.start, period, k);
    }
  }
}
