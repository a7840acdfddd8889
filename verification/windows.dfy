/** The windows events are filed under, and the backend's walk back to a closed one.

Both services floor the minute of the hour to a multiple of the bucket length, so every
hour starts a window, whatever the length.
 */
module Windows {
  import opened Calendar
  import opened Quotients

  /** How many windows before the current one the backend looks at. */
  const WINDOW_LOOKBACK: nat := 8

  /** The first minute of the window a minute belongs to, for any length of a minute or more. */
  function FloorMinute(minute: int, length: int): int
    requires length >= 1
  {
    minute - minute % 60 + minute % 60 / length * length
  }

  /** The instant a window begins. */
  function BucketStart(t: int, length: int): int
    requires length >= 1
  {
    FloorMinute(t / MICROS_PER_MINUTE, length) * MICROS_PER_MINUTE
  }

  /** The first minute after a window: its full length, or the next hour if that is sooner. */
  function BucketEndMinute(start: int, length: int): int {
    var hour := start - start % 60 + 60;
    if start + length < hour then start + length else hour
  }

  lemma FloorParts(m: nat, length: int)
    requires length >= 1
    ensures m == m / length * length + m % length
    ensures 0 <= m / length * length <= m
  {
  }

  /** Within the hour: the same multiple is the same stretch of one length. */
  lemma SameMultiple(m: nat, n: nat, length: int)
    requires length >= 1
    ensures n / length * length == m / length * length
        <==> m / length * length <= n < m / length * length + length
  {
    FloorParts(n, length);
    if m / length * length <= n < m / length * length + length {
      QuotientUnique(n / length, n % length, m / length, n - m / length * length, length);
    }
  }

  /** Windows partition time: a minute is in a window exactly when it is between the window's
      first minute and its end. */
  lemma WindowsPartition(minute: int, other: int, length: int)
    requires length >= 1
    ensures
      var start := FloorMinute(minute, length);
      FloorMinute(other, length) == start <==> start <= other < BucketEndMinute(start, length)
  {
    var m, n := minute % 60, other % 60;
    FloorParts(m, length);
    FloorParts(n, length);
    SameMultiple(m, n, length);
    HoursApart(minute - m, m / length * length, other - n, n, n / length * length, length);
  }

  /** The stretches of one hour lie within it, so different hours share none. */
  lemma HoursApart(hour: int, f: int, hour2: int, n: int, g: int, length: int)
    requires hour % 60 == 0 && hour2 % 60 == 0 && 0 <= f < 60 && 0 <= g <= n < 60 && length >= 1
    requires g == f <==> f <= n < f + length
    ensures hour2 + g == hour + f <==> hour + f <= hour2 + n < BucketEndMinute(hour + f, length)
  {
    HourOf(hour + f, hour);
  }

  lemma HourOf(x: int, hour: int)
    requires hour % 60 == 0 && hour <= x < hour + 60
    ensures x - x % 60 == hour
  {
  }

  /** In instants: nothing at or past a window's nominal end is filed under it. */
  lemma PastTheEndIsOutside(t: int, u: int, length: int)
    requires length >= 1 && u >= BucketStart(t, length) + length * MICROS_PER_MINUTE
    ensures BucketStart(u, length) != BucketStart(t, length)
  {
    var minute, other := t / MICROS_PER_MINUTE, u / MICROS_PER_MINUTE;
    WindowsPartition(minute, other, length);
    assert other >= FloorMinute(minute, length) + length;
  }

  // ----- the names of windows

  lemma StartIsNatural(t: nat, length: int)
    requires length >= 1
    ensures BucketStart(t, length) >= 0
    ensures BucketStart(t, length) / MICROS_PER_MINUTE == FloorMinute(t / MICROS_PER_MINUTE, length)
  {
    FloorParts(t / MICROS_PER_MINUTE % 60, length);
  }

  /** The name the sink files an event under. */
  function EventBucket(t: nat, length: int): string
    requires length >= 1
  {
    StartIsNatural(t, length);
    Text(BucketStart(t, length))
  }

  /** The name the backend asks for, from a setting it raises to at least one minute. */
  function BucketFor(t: nat, setting: int): string {
    var length := if setting < 1 then 1 else setting;
    StartIsNatural(t, length);
    Text(BucketStart(t, length))
  }

  /** The two services name the same window for two instants exactly when those instants are
      in one window, and names sort as their windows do.  The backend takes a setting below one
      to be one. */
  lemma NamesAgree(t: nat, u: nat, length: int, setting: int)
    requires length >= 1 && (setting == length || (setting < 1 && length == 1))
    requires BucketStart(t, length) >= 0 && BucketStart(u, length) >= 0
    requires FourDigitYear(BucketStart(t, length)) && FourDigitYear(BucketStart(u, length))
    ensures EventBucket(t, length) == BucketFor(u, setting) <==> BucketStart(t, length) == BucketStart(u, length)
    ensures Less(EventBucket(t, length), EventBucket(u, length)) <==> BucketStart(t, length) < BucketStart(u, length)
  {
    var a, b := BucketStart(t, length), BucketStart(u, length);
    StartIsNatural(t, length);
    StartIsNatural(u, length);
    TextOrderIsTimeOrder(a, b);
    if Text(a) == Text(b) {
      TextIsInjective(a, b);
    }
  }

  // ----- lengths that divide the hour

  /** Then a window starts at every multiple of the length, and nowhere else. */
  lemma FloorOfMultiple(q: int, r: int, length: int)
    requires length >= 1 && 60 % length == 0 && 0 <= r < length
    ensures FloorMinute(q * length + r, length) == q * length
  {
    var minute := q * length + r;
    var m, hours, per := minute % 60, minute / 60, 60 / length;
    assert 60 == per * length;
    assert 60 * hours == hours * per * length by { assert hours * (per * length) == hours * per * length; }
    FloorParts(m, length);
    Distribute(hours * per, m / length, length);
    QuotientUnique(hours * per + m / length, m % length, q, r, length);
  }

  // ----- the walk back

  /** The window just before one that starts at a minute. */
  function Previous(start: int, length: int): int
    requires length >= 1
  {
    FloorMinute(start - 1, length)
  }

  /** The window `k` before the one holding a minute, counted window by window. */
  function Back(minute: int, length: int, k: nat): int
    requires length >= 1
  {
    if k == 0 then FloorMinute(minute, length) else Previous(Back(minute, length, k - 1), length)
  }

  /** What the walk visits at step `k`: the window holding the minute `k` lengths ago. */
  function Visited(minute: int, length: int, k: nat): int
    requires length >= 1
  {
    FloorMinute(minute - length * k, length)
  }

  /** With a minute written as a multiple and a remainder, both are multiples further back. */
  lemma {:induction false} BackIsMultiple(q: int, r: int, length: int, k: nat)
    requires length >= 1 && 60 % length == 0 && 0 <= r < length
    ensures Back(q * length + r, length, k) == (q - k) * length
  {
    if k == 0 {
      FloorOfMultiple(q, r, length);
    } else {
      BackIsMultiple(q, r, length, k - 1);
      Distribute(q - k, 1, length);
      FloorOfMultiple(q - k, length - 1, length);
    }
  }

  lemma VisitedIsMultiple(q: int, r: int, length: int, k: nat)
    requires length >= 1 && 60 % length == 0 && 0 <= r < length
    ensures Visited(q * length + r, length, k) == (q - k) * length
  {
    Distribute(q - k, k, length);
    FloorOfMultiple(q - k, r, length);
  }

  lemma Decompose(minute: int, length: int) returns (q: int, r: int)
    requires length >= 1
    ensures minute == q * length + r && 0 <= r < length
  {
    q, r := minute / length, minute % length;
  }

  /** The walk visits every window in turn, from every minute, exactly when the length
      divides the hour. */
  lemma WalkIsGapless(length: int)
    requires length >= 1
    ensures (forall minute: int, k: nat :: k <= WINDOW_LOOKBACK ==>
               Visited(minute, length, k) == Back(minute, length, k))
            <==> 60 % length == 0
  {
    if 60 % length == 0 {
      forall minute: int, k: nat | k <= WINDOW_LOOKBACK
        ensures Visited(minute, length, k) == Back(minute, length, k)
      {
        var q, r := Decompose(minute, length);
        BackIsMultiple(q, r, length, k);
        VisitedIsMultiple(q, r, length, k);
      }
    } else {
      WalkSkips(length);
    }
  }

  /** Any other length skips the short window at the end of the hour. */
  lemma WalkSkips(length: int)
    requires length >= 1 && 60 % length != 0
    ensures Visited(0, length, 1) < Back(0, length, 1)
  {
    assert Back(0, length, 0) == 0;
    assert Back(0, length, 1) == FloorMinute(-1, length) == -60 + 59 / length * length;
    LastWindow(length);
    FloorBelow(-length, length);
  }

  lemma FloorBelow(minute: int, length: int)
    requires length >= 1
    ensures FloorMinute(minute, length) <= minute
  {
    FloorParts(minute % 60, length);
  }

  /** The last window of the hour starts less than a length before the next hour. */
  lemma LastWindow(length: int)
    requires length >= 1 && 60 % length != 0
    ensures -length < -60 + 59 / length * length
  {
    FloorParts(59, length);
    FloorParts(60, length);
    if 59 % length == length - 1 {
      Distribute(59 / length, 1, length);
      QuotientUnique(59 / length + 1, 0, 60 / length, 60 % length, length);
    }
  }

  // ----- which window to ask about

  datatype Window = Window(start: int, closed: bool)

  /** No window strictly between two holds events. */
  ghost predicate NoneBetween(from: int, to: int, length: int, holds: int -> bool)
    requires length >= 1
  {
    forall start :: FloorMinute(start, length) == start && from < start < to ==> !holds(start)
  }

  lemma NewestHolds(minute: int, length: int, k: nat, holds: int -> bool)
    requires length >= 1 && 60 % length == 0 && k >= 1
    requires forall j: nat :: 1 <= j < k ==> !holds(Visited(minute, length, j))
    ensures NoneBetween(Visited(minute, length, k), FloorMinute(minute, length), length, holds)
  {
    var current := FloorMinute(minute, length);
    forall start | FloorMinute(start, length) == start && Visited(minute, length, k) < start < current
      ensures !holds(start)
    {
      FoundIsNewest(minute, length, k, start);
    }
  }

  /** The route's search: the newest closed window that holds events, or the one filling. */
  method FindWindow(now: int, length: int, holds: int -> bool) returns (window: Window)
    requires length >= 1
    ensures window.closed ==>
              exists k: nat :: 1 <= k <= WINDOW_LOOKBACK
                && window.start == Visited(now / MICROS_PER_MINUTE, length, k) && holds(window.start)
                && (forall j: nat :: 1 <= j < k ==> !holds(Visited(now / MICROS_PER_MINUTE, length, j)))
    ensures !window.closed ==>
              && window.start == FloorMinute(now / MICROS_PER_MINUTE, length)
              && (forall k: nat :: 1 <= k <= WINDOW_LOOKBACK ==>
                    !holds(Visited(now / MICROS_PER_MINUTE, length, k)))
    ensures window.closed ==> holds(window.start) && window.start + length <= now / MICROS_PER_MINUTE
    ensures window.closed && 60 % length == 0 ==>
              NoneBetween(window.start, FloorMinute(now / MICROS_PER_MINUTE, length), length, holds)
  {
    var minute := now / MICROS_PER_MINUTE;
    for step := 1 to WINDOW_LOOKBACK + 1
      invariant forall k: nat :: 1 <= k < step ==> !holds(Visited(minute, length, k))
    {
      var candidate := Visited(minute, length, step);
      if holds(candidate) {
        FoundIsOver(minute, length, step);
        if 60 % length == 0 {
          NewestHolds(minute, length, step, holds);
        }
        return Window(candidate, true);
      }
    }
    window := Window(FloorMinute(minute, length), false);
  }

  /** With a length that divides the hour, the window the search returns at step `k` is over,
      and every window between it and the current one was looked at first. */
  lemma FoundIsNewest(minute: int, length: int, k: nat, start: int)
    requires length >= 1 && 60 % length == 0 && k >= 1 && FloorMinute(start, length) == start
    requires Visited(minute, length, k) < start < FloorMinute(minute, length)
    ensures exists j: nat :: 1 <= j < k && start == Visited(minute, length, j)
  {
    var q, r := Decompose(minute, length);
    var p, s := Decompose(start, length);
    VisitedIsMultiple(q, r, length, k);
    FloorOfMultiple(q, r, length);
    FloorOfMultiple(p, s, length);
    Ordered(q - k, p, length);
    Ordered(p, q, length);
    VisitedIsMultiple(q, r, length, q - p);
  }

  lemma Ordered(a: int, b: int, length: int)
    requires length >= 1 && a * length < b * length
    ensures a < b
  {
    Distribute(a - b, b, length);
    MultipleSign(a - b, length);
  }

  /** A window the search returns as closed is over. */
  lemma FoundIsOver(minute: int, length: int, k: nat)
    requires length >= 1 && k >= 1
    ensures Visited(minute, length, k) + length <= minute
  {
    FloorBelow(minute - length * k, length);
    MultipleSign(k, length);
  }
}
