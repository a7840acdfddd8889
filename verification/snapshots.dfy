/** Bulk reads off snapshots: their names, their time to live, and when one may be read again.

A snapshot's name ends in the second it was named and a counter, and its age is read back from
there.  It is removed when its time to live is up, whoever is reading it.
 */
module Snapshots {
  import opened Options

  // ----- names

  predicate Digits(s: string) { forall i :: 0 <= i < |s| ==> '0' <= s[i] <= '9' }

  function Decimal(n: nat): (s: string)
    ensures |s| > 0
  {
    if n < 10 then [('0' as int + n) as char]
    else Decimal(n / 10) + [('0' as int + n % 10) as char]
  }

  function Value(s: string): int {
    if s == [] then 0 else Value(s[..|s| - 1]) * 10 + (s[|s| - 1] as int - '0' as int)
  }

  lemma {:induction false} DecimalReads(n: nat)
    ensures Digits(Decimal(n)) && Value(Decimal(n)) == n
  {
    var s := Decimal(n);
    if n < 10 {
      assert s[..0] == [] && Value(s[..0]) == 0;
    } else {
      DecimalReads(n / 10);
      assert s[..|s| - 1] == Decimal(n / 10);
    }
  }

  function Power(k: nat): nat { if k == 0 then 1 else 10 * Power(k - 1) }

  lemma {:induction false} DecimalLength(n: nat, k: nat)
    requires k > 0
    ensures |Decimal(n)| > k <==> n >= Power(k)
  {
    if k == 1 {
      assert Power(1) == 10 * Power(0);
    } else if n >= 10 {
      DecimalLength(n / 10, k - 1);
      TenTimes(n, Power(k - 1));
    } else {
      PowerAtLeastTen(k);
    }
  }

  lemma TenTimes(n: nat, p: nat)
    ensures n / 10 >= p <==> n >= 10 * p
  {
  }

  lemma {:induction false} PowerAtLeastTen(k: nat)
    requires k > 0
    ensures Power(k) >= 10
  {
    if k > 1 {
      PowerAtLeastTen(k - 1);
    } else {
      assert Power(0) == 1;
    }
  }

  function Name(table: string, stamp: nat, count: nat): string {
    "htap_dashboard_" + table + "_" + Decimal(stamp) + "_" + Decimal(count)
  }

  /** Where the last underscore stands, or -1. */
  function LastUnderscore(s: string): (i: int)
    ensures -1 <= i < |s|
  {
    if s == [] then -1 else if s[|s| - 1] == '_' then |s| - 1 else LastUnderscore(s[..|s| - 1])
  }

  lemma {:induction false} LastUnderscoreIs(prefix: string, digits: string)
    requires Digits(digits)
    ensures LastUnderscore(prefix + "_" + digits) == |prefix|
  {
    var s := prefix + "_" + digits;
    if digits == [] {
      assert s == prefix + "_";
    } else {
      LastUnderscoreIs(prefix, digits[..|digits| - 1]);
      assert s[..|s| - 1] == prefix + "_" + digits[..|digits| - 1];
    }
  }

  lemma {:induction false} LastUnderscoreFound(s: string)
    requires LastUnderscore(s) >= 0
    ensures s[LastUnderscore(s)] == '_'
  {
    if s[|s| - 1] != '_' {
      LastUnderscoreFound(s[..|s| - 1]);
    }
  }

  /** The clock and the counter at the end of a name: an underscore, ten digits or more, an
      underscore, one digit or more. */
  function Stamp(name: string): Option<(int, int)> {
    var i := LastUnderscore(name);
    if i < 0 then None
    else
      var head, count := name[..i], name[i + 1..];
      var j := LastUnderscore(head);
      if j < 0 || !Digits(count) || count == [] || !Digits(head[j + 1..]) || |head[j + 1..]| < 10 then None
      else Some((Value(head[j + 1..]), Value(count)))
  }

  ghost predicate EndsIn(name: string, prefix: string, clock: string, count: string) {
    && name == prefix + "_" + clock + "_" + count
    && Digits(clock) && |clock| >= 10 && Digits(count) && |count| >= 1
  }

  /** Reading the end of a name finds the pattern wherever it can be found, and nothing else. */
  lemma StampIsMatch(name: string, prefix: string, clock: string, count: string)
    requires EndsIn(name, prefix, clock, count)
    ensures Stamp(name) == Some((Value(clock), Value(count)))
  {
    var head := prefix + "_" + clock;
    LastUnderscoreIs(head, count);
    LastUnderscoreIs(prefix, clock);
    assert name == head + "_" + count;
    assert name[..|head|] == head && name[|head| + 1..] == count;
    assert head[|prefix| + 1..] == clock;
  }

  lemma MatchIsStamp(name: string) returns (prefix: string, clock: string, count: string)
    requires Stamp(name).Some?
    ensures EndsIn(name, prefix, clock, count)
  {
    var i := LastUnderscore(name);
    LastUnderscoreFound(name);
    var head := name[..i];
    var j := LastUnderscore(head);
    LastUnderscoreFound(head);
    prefix, clock, count := head[..j], head[j + 1..], name[i + 1..];
    assert head == prefix + "_" + clock;
    assert name == head + "_" + count;
  }

  /** The clock in a name is the one it was named with, whatever the table is called. */
  lemma NameTellsStamp(table: string, stamp: nat, count: nat)
    ensures Stamp(Name(table, stamp, count)) ==
            if stamp >= 1_000_000_000 then Some((stamp as int, count as int)) else None
  {
    var clock, number := Decimal(stamp), Decimal(count);
    var prefix := "htap_dashboard_" + table;
    var head, name := prefix + "_" + clock, Name(table, stamp, count);
    DecimalReads(stamp);
    DecimalReads(count);
    NinePowers();
    DecimalLength(stamp, 9);
    LastUnderscoreIs(head, number);
    LastUnderscoreIs(prefix, clock);
    assert name == head + "_" + number;
    assert name[..|head|] == head && name[|head| + 1..] == number && head[|prefix| + 1..] == clock;
  }

  lemma NinePowers()
    ensures Power(9) == 1_000_000_000
  {
    assert Power(3) == 10 * Power(2) == 1000;
    assert Power(6) == 10 * Power(5) == 100 * Power(4) == 1000 * Power(3);
    assert Power(9) == 10 * Power(8) == 100 * Power(7) == 1000 * Power(6);
  }

  // ----- time to live

  function CeilDiv(a: int, b: int): int
    requires b > 0
  {
    -(-a / b)
  }

  /** Minutes a snapshot lives, from the longest a read may take in seconds. */
  function TtlMinutes(timeout: int): int {
    var twice := CeilDiv(timeout, 60) * 2;
    if twice > 15 then twice else 15
  }

  function Life(timeout: int): real { (TtlMinutes(timeout) * 60) as real }

  /** The life is twice the timeout at least, and longer than it in any case; and it is a quarter
      of an hour, or twice the timeout rounded up to minutes. */
  lemma LifeCoversTwice(timeout: int)
    ensures Life(timeout) >= 2.0 * timeout as real && Life(timeout) > timeout as real
    ensures Life(timeout) >= 900.0 && (Life(timeout) == 900.0 || Life(timeout) < 2.0 * timeout as real + 120.0)
  {
    var c := CeilDiv(timeout, 60);
    assert timeout <= c * 60 < timeout + 60;
    assert TtlMinutes(timeout) * 60 >= 2 * timeout && TtlMinutes(timeout) * 60 >= 900;
  }

  /** Never negative, even when the clock was set back. */
  function Age(now: real, stamp: int): (age: real)
    ensures age >= 0.0 && age >= now - stamp as real && (age == 0.0 || age == now - stamp as real)
  {
    if now - stamp as real >= 0.0 then now - stamp as real else 0.0
  }

  /** Enough of its life is left for a whole read. */
  predicate Eligible(timeout: int, now: real, stamp: int) { Life(timeout) - Age(now, stamp) > timeout as real }

  /** A fresh snapshot may be read again at least until one second short of a timeout later, and
      exactly until its life less a timeout has passed since its clock. */
  lemma EligibleWindow(timeout: int, taken: real, now: real)
    requires taken >= 0.0 && now >= taken
    ensures Eligible(timeout, now, taken.Floor) <==> now < taken.Floor as real + Life(timeout) - timeout as real
    ensures now <= taken + timeout as real - 1.0 ==> Eligible(timeout, now, taken.Floor)
  {
    LifeCoversTwice(timeout);
    assert taken.Floor as real <= taken < taken.Floor as real + 1.0;
  }

  // ----- reading again

  /** When a snapshot is removed, given when it was in fact taken. */
  function Expiry(timeout: int, taken: real): real { taken + Life(timeout) }

  /** What preparing one table meets: its clock, whether its last snapshot is still listed, how
      long taking one lasts, whether the view is made, and the clock when its age is read. */
  datatype Preparation = Preparation(
    table: string, now: real, listed: bool, delay: real, made: bool, read: real)

  function AgeOf(name: string, now: real): Option<real> {
    match Stamp(name)
    case None => None
    case Some(stamp) => Some(Age(now, stamp.0))
  }

  function Ages(names: seq<string>, tables: seq<Preparation>): seq<Option<real>>
    requires |names| <= |tables|
  {
    seq(|names|, i requires 0 <= i < |names| => AgeOf(names[i], tables[i].read))
  }

  /** The greatest of the ages that can be read. */
  ghost predicate IsOldest(ages: seq<Option<real>>, oldest: Option<real>) {
    && (forall i :: 0 <= i < |ages| && ages[i].Some? ==> oldest.Some? && oldest.value >= ages[i].value)
    && (oldest.Some? ==> oldest in ages)
  }

  method OldestAge(ages: seq<Option<real>>) returns (oldest: Option<real>)
    ensures IsOldest(ages, oldest)
  {
    oldest := None;
    for i := 0 to |ages|
      invariant IsOldest(ages[..i], oldest)
    {
      if ages[i].Some? && (oldest.None? || ages[i].value > oldest.value) {
        oldest := ages[i];
      }
      assert ages[..i + 1] == ages[..i] + [ages[i]];
    }
    assert ages[..|ages|] == ages;
  }

  /** No snapshot's time changes. */
  ghost predicate Keeps(before: map<string, real>, after: map<string, real>) {
    forall s :: s in before ==> s in after && after[s] == before[s]
  }

  /** A snapshot that is there more than a timeout from now. */
  ghost predicate Outlives(taken: map<string, real>, timeout: int, name: string, now: real) {
    name in taken && Expiry(timeout, taken[name]) > now + timeout as real
  }

  /** Each snapshot chosen so far is, from its own choice on. */
  ghost predicate AllOutlive(taken: map<string, real>, timeout: int, names: seq<string>, tables: seq<Preparation>) {
    |names| <= |tables| && forall i :: 0 <= i < |names| ==> Outlives(taken, timeout, names[i], tables[i].now)
  }

  lemma OneMoreOutlives(before: map<string, real>, after: map<string, real>, timeout: int, names: seq<string>,
                        tables: seq<Preparation>, name: string)
    requires AllOutlive(before, timeout, names, tables) && Keeps(before, after) && |names| < |tables|
    requires Outlives(after, timeout, name, tables[|names|].now)
    ensures AllOutlive(after, timeout, names + [name], tables)
  {
  }

  /** The table's last snapshot may be read again: there is one, its name tells its clock, it is
      still listed, and its age leaves more than a timeout of its life. */
  ghost predicate MayReuse(last: map<string, string>, timeout: int, table: string, now: real, listed: bool) {
    && listed && table in last && AgeOf(last[table], now).Some?
    && AgeOf(last[table], now).value + timeout as real < Life(timeout)
  }

  ghost predicate AllMayReuse(last: map<string, string>, timeout: int, tables: seq<Preparation>) {
    forall i :: 0 <= i < |tables| ==> MayReuse(last, timeout, tables[i].table, tables[i].now, tables[i].listed)
  }

  /** The last snapshots once each table's choice is noted in turn. */
  function Noted(last: map<string, string>, names: seq<string>, tables: seq<Preparation>): map<string, string>
    requires |names| <= |tables|
  {
    if names == [] then last
    else
      var n := |names| - 1;
      Noted(last, names[..n], tables)[tables[n].table := names[n]]
  }

  /** One more choice: reading all again so far leaves the last snapshots as they were. */
  lemma NotedNext(last: map<string, string>, names: seq<string>, tables: seq<Preparation>, name: string)
    requires |names| < |tables|
    ensures Noted(last, names + [name], tables) == Noted(last, names, tables)[tables[|names|].table := name]
  {
    assert (names + [name])[..|names|] == names;
  }

  /** What is remembered: the last snapshot of each table, and when each was in fact taken. */
  datatype Memory = Memory(last: map<string, string>, taken: map<string, real>)

  /** A choice for one table.  The one chosen outlives a read that starts now.  It is the last
      one exactly if that was asked for and may be, and then no snapshot changes; otherwise it is
      new and the only one added. */
  ghost predicate Chose(
    m: Memory, after: Memory, timeout: int, p: Preparation, reuse: bool, name: string, again: bool)
  {
    && after.last == m.last[p.table := name] && Outlives(after.taken, timeout, name, p.now)
    && (again <==> reuse && MayReuse(m.last, timeout, p.table, p.now, p.listed))
    && (again ==> p.table in m.last && name == m.last[p.table] && after.taken == m.taken)
    && (!again ==> name !in m.taken && after.taken == m.taken[name := p.now + p.delay])
  }

  /** The choices for the first tables of a statement. */
  ghost predicate Prepared(
    m: Memory, after: Memory, timeout: int, reuse: bool, tables: seq<Preparation>, names: seq<string>)
  {
    && |names| <= |tables| && AllOutlive(after.taken, timeout, names, tables)
    && after.last == Noted(m.last, names, tables) && Keeps(m.taken, after.taken)
    && (after.taken == m.taken ==> after == m)
    && (after.taken == m.taken <==> names == [] || (reuse && AllMayReuse(m.last, timeout, tables[..|names|])))
  }

  lemma PreparedNext(m: Memory, before: Memory, after: Memory, timeout: int, reuse: bool,
                     tables: seq<Preparation>, names: seq<string>, name: string, again: bool)
    requires Prepared(m, before, timeout, reuse, tables, names) && |names| < |tables|
    requires Chose(before, after, timeout, tables[|names|], reuse, name, again)
    ensures Prepared(m, after, timeout, reuse, tables, names + [name])
    ensures after.taken == m.taken <==> before.taken == m.taken && again
  {
    OneMoreOutlives(before.taken, after.taken, timeout, names, tables, name);
    NotedNext(m.last, names, tables, name);
    AllMayGrow(m.last, timeout, tables, |names|);
    assert before.taken == m.taken && again ==> after == m;
    NewIsKept(m.taken, before.taken, after.taken, name, tables[|names|].now + tables[|names|].delay, again);
  }

  lemma NewIsKept(
      taken: map<string, real>, before: map<string, real>, after: map<string, real>,
      name: string, at: real, again: bool)
    requires Keeps(taken, before) && (again ==> after == before)
    requires !again ==> name !in before && after == before[name := at]
    ensures after == taken <==> before == taken && again
  {
    assert !again ==> name in after && name !in taken;
    if after == taken {
      assert forall s :: s in before ==> s in taken;
      assert before == taken;
    }
  }

  lemma AllMayGrow(last: map<string, string>, timeout: int, tables: seq<Preparation>, n: nat)
    requires n < |tables|
    ensures
      var p := tables[n];
      AllMayReuse(last, timeout, tables[..n + 1]) <==>
      AllMayReuse(last, timeout, tables[..n]) && MayReuse(last, timeout, p.table, p.now, p.listed)
  {
    assert tables[..n + 1] == tables[..n] + [tables[n]];
  }

  /** Every snapshot was taken after its clock, with a counter already used. */
  ghost predicate Stamped(taken: map<string, real>, count: nat) {
    forall s :: s in taken && Stamp(s).Some? ==>
      Stamp(s).value.0 as real <= taken[s] && Stamp(s).value.1 < count
  }

  lemma FreshIsNew(taken: map<string, real>, timeout: int, table: string, count: nat, now: real, delay: real)
    requires Stamped(taken, count) && now >= 1_000_000_000.0 && delay >= 0.0
    ensures
      var name := Name(table, now.Floor, count);
      var more := taken[name := now + delay];
      && name !in taken && Stamp(name) == Some((now.Floor, count as int))
      && Stamped(more, count + 1) && Outlives(more, timeout, name, now)
  {
    NameTellsStamp(table, now.Floor, count);
    LifeCoversTwice(timeout);
  }

  lemma FreshIsChosen(m: Memory, count: nat, timeout: int, p: Preparation, reuse: bool)
    requires Stamped(m.taken, count) && p.now >= 1_000_000_000.0 && p.delay >= 0.0
    requires !(reuse && MayReuse(m.last, timeout, p.table, p.now, p.listed))
    ensures
      var name := Name(p.table, p.now.Floor, count);
      var after := Memory(m.last[p.table := name], m.taken[name := p.now + p.delay]);
      && Chose(m, after, timeout, p, reuse, name, false)
      && Stamped(m.taken, count + 1) && Stamped(after.taken, count + 1)
      && Stamp(name) == Some((p.now.Floor, count as int))
  {
    FreshIsNew(m.taken, timeout, p.table, count, p.now, p.delay);
  }

  lemma AgainIsChosen(m: Memory, count: nat, timeout: int, p: Preparation)
    requires Stamped(m.taken, count) && MayReuse(m.last, timeout, p.table, p.now, p.listed)
    requires m.last[p.table] in m.taken
    ensures m.last == m.last[p.table := m.last[p.table]]
    ensures Chose(m, m, timeout, p, true, m.last[p.table], true)
  {
  }

  class SparkBulk {
    const timeout: int
    var lastSnapshot: map<string, string>
    var count: nat
    /** When each snapshot was in fact taken: after it was named. */
    ghost var taken: map<string, real>

    ghost predicate Valid()
      reads this
    {
      && (forall t :: t in lastSnapshot ==> lastSnapshot[t] in taken)
      && Stamped(taken, count)
    }

    ghost function Now(): Memory
      reads this
    {
      Memory(lastSnapshot, taken)
    }

    constructor (timeout: int)
      ensures Valid() && this.timeout == timeout && taken == map[] && lastSnapshot == map[] && count == 1
    {
      this.timeout := timeout;
      lastSnapshot, count, taken := map[], 1, map[];
    }

    /** The last snapshot of a table, if reading it again would be sound; `listed` says whether
        it is still there. */
    method Reusable(table: string, now: real, listed: bool) returns (snapshot: Option<string>)
      requires Valid()
      ensures snapshot.Some? <==> MayReuse(lastSnapshot, timeout, table, now, listed)
      ensures snapshot.None? || (table in lastSnapshot && snapshot == Some(lastSnapshot[table]))
    {
      if table !in lastSnapshot {
        return None;
      }
      match Stamp(lastSnapshot[table])
      case None => return None;
      case Some(stamp) =>
        if Life(timeout) - Age(now, stamp.0) <= timeout as real || !listed {
          return None;
        }
        return Some(lastSnapshot[table]);
    }

    /** Point a table's view at a snapshot at time `now`.  A fresh one is named then and taken
        `delay` later; a view that cannot be made leaves everything as it was. */
    method RegisterBulkView(p: Preparation, reuse: bool) returns (snapshot: Option<(string, bool)>)
      requires Valid() && p.now >= 1_000_000_000.0 && p.delay >= 0.0
      modifies this
      ensures Valid()
      ensures snapshot.None? <==> !p.made
      ensures !p.made ==> Now() == old(Now())
      ensures p.made ==>
                var (name, again) := snapshot.value;
                && Chose(old(Now()), Now(), timeout, p, reuse, name, again)
                && (!again ==> Stamp(name) == Some((p.now.Floor, old(count) as int)) && count == old(count) + 1)
    {
      var Preparation(table, now, listed, delay, made, _) := p;
      var existing := None;
      if reuse {
        existing := Reusable(table, now, listed);
      }
      var name;
      if existing.Some? {
        name := existing.value;
      } else {
        name := Name(table, now.Floor, count);
        FreshIsChosen(Now(), count, timeout, p, reuse);
        count := count + 1;
      }
      if !made {
        return None;
      }
      if existing.None? {
        taken := taken[name := now + delay];
      } else {
        AgainIsChosen(Now(), count, timeout, p);
      }
      lastSnapshot := lastSnapshot[table := name];
      return Some((name, existing.Some?));
    }

    /** Two registrations of one table: the second reads the snapshot the first took if it is
        still listed and less than a second short of a timeout has passed. */
    method RegisterTwice(table: string, now: real, delay: real, later: real, reuse: bool)
        returns (first: string, second: string, again: bool)
      requires Valid() && now >= 1_000_000_000.0 && delay >= 0.0 && later >= now
      modifies this
      ensures reuse && later <= now + timeout as real - 1.0 ==> again
      ensures again ==> reuse && second == first
      ensures !again ==> second != first
    {
      var one := RegisterBulkView(Preparation(table, now, true, delay, true, now), false);
      first := one.value.0;
      var two := RegisterBulkView(Preparation(table, later, true, delay, true, later), reuse);
      second, again := two.value.0, two.value.1;
      EligibleWindow(timeout, now, later);
    }

    /** Prepare every table a statement reads, in order, up to one that cannot be.  Each table
        has its own readings of the clock.  Says which snapshots serve it, whether all of them
        were read again, and the age of the oldest. */
    method Prepare(tables: seq<Preparation>, reuse: bool)
        returns (names: seq<string>, ok: bool, reused: bool, oldest: Option<real>)
      requires Valid() && forall i :: 0 <= i < |tables| ==> tables[i].now >= 1_000_000_000.0 && tables[i].delay >= 0.0
      modifies this
      ensures Valid()
      ensures |names| <= |tables| && (ok <==> |names| == |tables|)
      ensures ok <==> forall i :: 0 <= i < |tables| ==> tables[i].made
      ensures Prepared(old(Now()), Now(), timeout, reuse, tables, names)
      ensures reused <==> ok && tables != [] && reuse && AllMayReuse(old(lastSnapshot), timeout, tables)
      ensures reused ==> Now() == old(Now())
      ensures if ok then IsOldest(Ages(names, tables), oldest) else oldest.None?
    {
      names, ok, reused, oldest := [], true, true, None;
      var i := 0;
      while i < |tables|
        invariant 0 <= i <= |tables| && i == |names| && Valid()
        invariant forall k :: 0 <= k < i ==> tables[k].made
        invariant Prepared(old(Now()), Now(), timeout, reuse, tables, names)
        invariant reused <==> taken == old(taken)
        invariant oldest.None?
      {
        var p := tables[i];
        ghost var before := Now();
        var snapshot := RegisterBulkView(p, reuse);
        if snapshot.None? {
          ok, reused := false, false;
          return;
        }
        var (name, again) := snapshot.value;
        PreparedNext(old(Now()), before, Now(), timeout, reuse, tables, names, name, again);
        names, reused, i := names + [name], reused && again, i + 1;
      }
      assert tables[..|tables|] == tables;
      reused := reused && names != [];
      oldest := OldestAge(Ages(names, tables));
    }
  }

  // ----- a statement over several tables

  /** A read that starts some time after its snapshot was chosen, and may take a timeout, ends
      before the snapshot does. */
  predicate Covered(timeout: int, taken: real, chosen: real, preparing: real) {
    chosen + preparing + timeout as real < Expiry(timeout, taken)
  }

  /** A fresh snapshot covers a read that starts up to a timeout after it. */
  lemma FreshIsCovered(timeout: int, chosen: real, delay: real, preparing: real)
    requires delay >= 0.0 && preparing < Life(timeout) - timeout as real
    ensures Covered(timeout, chosen + delay, chosen, preparing)
    ensures Life(timeout) - timeout as real >= timeout as real
  {
    LifeCoversTwice(timeout);
  }

  /** A snapshot read again is chosen with a timeout to spare, counted from the choice and not
      from the read: every eligible choice covers the read exactly when nothing is prepared
      between the two. */
  lemma ReuseIsCoveredIff(timeout: int, preparing: real)
    requires timeout >= 0 && preparing >= 0.0
    ensures preparing == 0.0 <==>
            forall stamp: nat, chosen: real ::
              chosen >= stamp as real && Eligible(timeout, chosen, stamp) ==>
                Covered(timeout, stamp as real, chosen, preparing)
  {
    LifeCoversTwice(timeout);
    if preparing > 0.0 {
      var spare := Life(timeout) - timeout as real;
      var less := if preparing / 2.0 <= spare then preparing / 2.0 else spare;
      var stamp, chosen := 1_000_000_000, 1_000_000_000.0 + spare - less;
      assert Eligible(timeout, chosen, stamp) && !Covered(timeout, stamp as real, chosen, preparing);
    }
  }
}
