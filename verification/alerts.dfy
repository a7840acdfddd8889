/** Recent alerts: filed by hour, read back hour by hour until there are enough. */
module Alerts {
  import opened Calendar
  import opened Collections

  /** An alert by its key: its time, its asset (as its place in the order of asset names) and its
      own id. */
  datatype Alert = Alert(time: nat, entity: int, id: int)

  function Hour(a: Alert): nat { a.time / MICROS_PER_HOUR }

  /** The order within a partition: newest first, then by asset, then the later id. */
  predicate Before(a: Alert, b: Alert) {
    || a.time > b.time
    || (a.time == b.time && (a.entity < b.entity || (a.entity == b.entity && a.id > b.id)))
  }

  ghost predicate Ordered(s: seq<Alert>) { forall i, j :: 0 <= i < j < |s| ==> Before(s[i], s[j]) }

  /** A set of alerts, in order. */
  ghost predicate Enumerates(s: seq<Alert>, alerts: set<Alert>) {
    Ordered(s) && forall a :: a in s <==> a in alerts
  }

  /** The alerts of the hours from `from` to `to`, the last one included. */
  ghost function Filed(alerts: set<Alert>, from: int, to: int): set<Alert> {
    set a | a in alerts && from * MICROS_PER_HOUR <= a.time < (to + 1) * MICROS_PER_HOUR
  }

  /** A partition for each bucket's text, with the alerts whose own hour has that text, in order. */
  ghost predicate Table(partition: string -> seq<Alert>, alerts: set<Alert>) {
    && (forall a :: a in alerts ==> FourDigitHour(Hour(a)))
    && (forall bucket :: Enumerates(partition(bucket), set a | a in alerts && HourText(Hour(a)) == bucket))
  }

  /** What a read of each hour's partition returns. */
  function ByHour(partition: string -> seq<Alert>): nat -> seq<Alert> { (hour: nat) => partition(HourText(hour)) }

  lemma HourBounds(a: Alert, hour: nat)
    ensures Hour(a) == hour <==> hour * MICROS_PER_HOUR <= a.time < (hour + 1) * MICROS_PER_HOUR
  {
  }

  /** The partition of an hour's text holds the alerts of that hour. */
  lemma BucketIsHour(partition: string -> seq<Alert>, alerts: set<Alert>, hour: nat)
    requires Table(partition, alerts) && FourDigitHour(hour)
    ensures Enumerates(ByHour(partition)(hour), Filed(alerts, hour, hour))
  {
    var named := set a | a in alerts && HourText(Hour(a)) == HourText(hour);
    forall a ensures a in named <==> a in Filed(alerts, hour, hour) {
      HourBounds(a, hour);
      if a in named {
        HourTextIsInjective(Hour(a), hour);
      }
    }
    assert named == Filed(alerts, hour, hour);
    assert Enumerates(partition(HourText(hour)), named);
  }

  /** Reads of hours up to this one return their alerts in order. */
  ghost predicate ReadsHours(read: nat -> seq<Alert>, alerts: set<Alert>, hour: nat) {
    forall h: nat :: h <= hour ==> Enumerates(read(h), Filed(alerts, h, h))
  }

  lemma TableReads(partition: string -> seq<Alert>, alerts: set<Alert>, hour: nat)
    requires Table(partition, alerts) && FourDigitHour(hour)
    ensures ReadsHours(ByHour(partition), alerts, hour)
  {
    forall h: nat | h <= hour ensures Enumerates(ByHour(partition)(h), Filed(alerts, h, h)) {
      EarlierIsFourDigit(h, hour);
      BucketIsHour(partition, alerts, h);
    }
  }

  lemma EarlierIsFourDigit(early: nat, late: nat)
    requires early <= late && FourDigitHour(late)
    ensures FourDigitHour(early)
  {
    if early / 24 < late / 24 {
      DatesAdvance(early / 24, late / 24);
    }
  }

  // ----- there is one order

  lemma {:induction false} EnumerationIsUnique(s: seq<Alert>, t: seq<Alert>, alerts: set<Alert>)
    requires Enumerates(s, alerts) && Enumerates(t, alerts)
    ensures s == t
  {
    assert |t| > 0 ==> t[0] in alerts && t[0] in s;
    assert |s| > 0 ==> s[0] in alerts && s[0] in t;
    if s != [] {
      SameFirst(s, t);
      RestEnumerates(s, alerts);
      RestEnumerates(t, alerts);
      EnumerationIsUnique(s[1..], t[1..], alerts - {s[0]});
      assert s == [s[0]] + s[1..] && t == [t[0]] + t[1..];
    }
  }

  lemma SameFirst(s: seq<Alert>, t: seq<Alert>)
    requires Ordered(s) && Ordered(t) && s != [] && t != [] && s[0] in t && t[0] in s
    ensures s[0] == t[0]
  {
    var i :| 0 <= i < |t| && t[i] == s[0];
    var j :| 0 <= j < |s| && s[j] == t[0];
    assert i > 0 ==> Before(t[0], t[i]);
    assert j > 0 ==> Before(s[0], s[j]);
  }

  lemma RestEnumerates(s: seq<Alert>, alerts: set<Alert>)
    requires Enumerates(s, alerts) && s != []
    ensures Enumerates(s[1..], alerts - {s[0]})
  {
    forall a ensures a in s[1..] <==> a in alerts - {s[0]} {
      assert s == [s[0]] + s[1..];
      assert a in s[1..] ==> exists i :: 1 <= i < |s| && s[i] == a;
    }
  }

  // ----- the walk

  /** The partitions of so many hours, from `hour` back. */
  function Walk(read: nat -> seq<Alert>, hour: nat, hours: nat): seq<Alert>
    requires hours <= hour + 1
  {
    if hours == 0 then [] else Walk(read, hour, hours - 1) + read(hour - (hours - 1))
  }

  /** Walking back over whole hours gives their alerts in order. */
  lemma {:induction false} WalkEnumerates(read: nat -> seq<Alert>, alerts: set<Alert>, hour: nat, hours: nat)
    requires ReadsHours(read, alerts, hour) && hours <= hour + 1
    ensures Enumerates(Walk(read, hour, hours), Filed(alerts, hour - hours + 1, hour))
  {
    if hours > 0 {
      var last := hour - (hours - 1);
      WalkEnumerates(read, alerts, hour, hours - 1);
      JoinEnumerates(Walk(read, hour, hours - 1), read(last), alerts, last, hour);
    }
  }

  lemma JoinEnumerates(a: seq<Alert>, b: seq<Alert>, alerts: set<Alert>, from: int, to: int)
    requires from <= to
    requires Enumerates(a, Filed(alerts, from + 1, to)) && Enumerates(b, Filed(alerts, from, from))
    ensures Enumerates(a + b, Filed(alerts, from, to))
  {
    forall i, j | 0 <= i < |a| && 0 <= j < |b| ensures Before(a[i], b[j]) {
      assert a[i] in Filed(alerts, from + 1, to) && b[j] in Filed(alerts, from, from);
      LaterHour(a[i], b[j]);
    }
    forall x ensures x in a + b <==> x in Filed(alerts, from, to) {
      assert x in a + b <==> x in a || x in b;
    }
  }

  lemma LaterHour(a: Alert, b: Alert)
    requires Hour(a) > Hour(b)
    ensures a.time > b.time
  {
  }

  lemma TakeMore(a: seq<Alert>, b: seq<Alert>, n: nat)
    requires |Take(a, n)| < n
    ensures Take(a + b, n) == Take(a, n) + Take(b, n - |Take(a, n)|)
  {
  }

  lemma TakeFull(a: seq<Alert>, b: seq<Alert>, n: nat)
    requires |Take(a, n)| == n
    ensures Take(a + b, n) == Take(a, n)
  {
  }

  lemma {:induction false} WalkFull(read: nat -> seq<Alert>, hour: nat, some: nat, hours: nat, n: nat)
    requires some <= hours <= hour + 1 && |Take(Walk(read, hour, some), n)| == n
    ensures Take(Walk(read, hour, hours), n) == Take(Walk(read, hour, some), n)
    decreases hours
  {
    if some < hours {
      WalkFull(read, hour, some, hours - 1, n);
      TakeFull(Walk(read, hour, hours - 1), read(hour - (hours - 1)), n);
    }
  }

  lemma AnyEnumeration(s: seq<Alert>, alerts: set<Alert>, n: nat)
    requires Enumerates(s, alerts)
    ensures forall all :: Enumerates(all, alerts) ==> Take(s, n) == Take(all, n)
  {
    forall all | Enumerates(all, alerts) ensures Take(s, n) == Take(all, n) {
      EnumerationIsUnique(all, s, alerts);
    }
  }

  /** Times never go up; alerts of one time are by asset, and of one asset the later id is first. */
  ghost predicate NewestFirst(s: seq<Alert>) {
    forall i, j :: 0 <= i < j < |s| ==>
      && s[i].time >= s[j].time
      && (s[i].time == s[j].time ==> s[i].entity <= s[j].entity)
      && (s[i].time == s[j].time && s[i].entity == s[j].entity ==> s[i].id > s[j].id)
  }

  lemma OrderedTake(s: seq<Alert>, n: nat)
    requires Ordered(s)
    ensures NewestFirst(Take(s, n))
  {
  }

  function AtLeast(n: int, least: int): int { if n > least then n else least }

  /** The loop: one partition after another, each for as many as are still wanted. */
  method WalkBack(read: nat -> seq<Alert>, now: nat, limit: int, hours: nat) returns (found: seq<Alert>)
    requires hours <= now / MICROS_PER_HOUR + 1
    ensures found == Take(Walk(read, now / MICROS_PER_HOUR, hours), AtLeast(limit, 0))
  {
    ghost var n, hour := AtLeast(limit, 0), now / MICROS_PER_HOUR;
    found := [];
    var bucketTime, i := now as int, 0;
    while i < hours
      invariant 0 <= i <= hours && bucketTime == now - i * MICROS_PER_HOUR
      invariant found == Take(Walk(read, hour, i), n)
    {
      var remaining := limit - |found|;
      if remaining <= 0 {
        WalkFull(read, hour, i, hours, n);
        return;
      }
      assert bucketTime / MICROS_PER_HOUR == hour - i;
      TakeMore(Walk(read, hour, i), read(hour - i), n);
      found := found + Take(read(bucketTime / MICROS_PER_HOUR), remaining);
      bucketTime, i := bucketTime - MICROS_PER_HOUR, i + 1;
    }
  }

  /** The first `limit` of all the alerts filed in the last hours, in order: whatever enumerates
      those alerts begins with them. */
  method GetAlerts(partition: string -> seq<Alert>, ghost alerts: set<Alert>, now: nat, limit: int, hours: int)
      returns (found: seq<Alert>)
    requires Table(partition, alerts)
    requires AtLeast(hours, 1) <= now / MICROS_PER_HOUR + 1 && FourDigitHour(now / MICROS_PER_HOUR)
    ensures
      var hour, total := now / MICROS_PER_HOUR, AtLeast(hours, 1);
      forall all :: Enumerates(all, Filed(alerts, hour - total + 1, hour)) ==> found == Take(all, AtLeast(limit, 0))
    ensures
      var hour, total := now / MICROS_PER_HOUR, AtLeast(hours, 1);
      Enumerates(Walk(ByHour(partition), hour, total), Filed(alerts, hour - total + 1, hour))
    ensures NewestFirst(found)
  {
    ghost var hour := now / MICROS_PER_HOUR;
    var total, read := AtLeast(hours, 1), ByHour(partition);
    found := WalkBack(read, now, limit, total);
    TableReads(partition, alerts, hour);
    WalkEnumerates(read, alerts, hour, total);
    OrderedTake(Walk(read, hour, total), AtLeast(limit, 0));
    AnyEnumeration(Walk(read, hour, total), Filed(alerts, hour - total + 1, hour), AtLeast(limit, 0));
  }
}
