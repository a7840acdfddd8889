/** Instants, the calendar, and the text of a minute.

An instant is a number of microseconds since midnight on the first of January of the year
1000, in UTC.  The text is the one the sink and the backend both write: a date, a `T`, and
an hour and a minute, each padded with zeros.
 */
module Calendar {
  import opened Collections

  const MICROS_PER_MINUTE: int := 60_000_000

  datatype Date = Date(year: int, month: int, day: int)

  predicate Leap(year: int) {
    year % 4 == 0 && (year % 100 != 0 || year % 400 == 0)
  }

  function DaysIn(year: int, month: int): int {
    if month == 2 then (if Leap(year) then 29 else 28)
    else if month in {4, 6, 9, 11} then 30
    else 31
  }

  predicate Real(d: Date) {
    d.year >= 1000 && 1 <= d.month <= 12 && 1 <= d.day <= DaysIn(d.year, d.month)
  }

  function NextDay(d: Date): Date {
    if d.day < DaysIn(d.year, d.month) then Date(d.year, d.month, d.day + 1)
    else if d.month < 12 then Date(d.year, d.month + 1, 1)
    else Date(d.year + 1, 1, 1)
  }

  /** The date `n` days after the first of January 1000. */
  function DateOf(n: nat): (d: Date)
    ensures Real(d)
  {
    if n == 0 then Date(1000, 1, 1) else NextDay(DateOf(n - 1))
  }

  predicate Earlier(a: Date, b: Date) {
    a.year < b.year || (a.year == b.year && (a.month < b.month || (a.month == b.month && a.day < b.day)))
  }

  /** Later days have later dates. */
  lemma {:induction false} DatesAdvance(m: nat, n: nat)
    requires m < n
    ensures Earlier(DateOf(m), DateOf(n))
  {
    if m < n - 1 {
      DatesAdvance(m, n - 1);
    }
  }

  // ----- counting days

  /** How many years up to this one had a day more. */
  function LeapDays(year: int): int { year / 4 - year / 100 + year / 400 }

  lemma LeapDaysNext(year: int)
    ensures LeapDays(year) == LeapDays(year - 1) + if Leap(year) then 1 else 0
  {
    StepBy4(year);
    StepBy100(year);
    StepBy400(year);
  }

  lemma StepBy4(year: int)
    ensures year / 4 == (year - 1) / 4 + if year % 4 == 0 then 1 else 0
  {
  }

  lemma StepBy100(year: int)
    ensures year / 100 == (year - 1) / 100 + if year % 100 == 0 then 1 else 0
    ensures year % 100 == 0 ==> year % 4 == 0
  {
  }

  lemma StepBy400(year: int)
    ensures year / 400 == (year - 1) / 400 + if year % 400 == 0 then 1 else 0
    ensures year % 400 == 0 ==> year % 100 == 0
  {
  }

  /** Days before the first of January of a year. */
  function DaysToYear(year: int): int { 365 * (year - 1000) + LeapDays(year - 1) - LeapDays(999) }

  const MONTH_STARTS: seq<int> := [0, 31, 59, 90, 120, 151, 181, 212, 243, 273, 304, 334]

  /** Days of the year before the first of a month. */
  function DaysToMonth(year: int, month: int): int
    requires 1 <= month <= 12
  {
    MONTH_STARTS[month - 1] + if month > 2 && Leap(year) then 1 else 0
  }

  lemma {:induction false} DayOfMonth(n: nat, year: int, month: int, day: int)
    requires DateOf(n) == Date(year, month, 1) && 1 <= day <= DaysIn(year, month)
    ensures DateOf(n + day - 1) == Date(year, month, day)
    decreases day
  {
    if day > 1 {
      DayOfMonth(n, year, month, day - 1);
    }
  }

  lemma {:induction false} MonthStarts(n: nat, year: int, month: int)
    requires DateOf(n) == Date(year, 1, 1) && 1 <= month <= 12
    ensures DateOf(n + DaysToMonth(year, month)) == Date(year, month, 1)
    decreases month
  {
    if month > 1 {
      MonthStarts(n, year, month - 1);
      var last := DaysIn(year, month - 1);
      DayOfMonth(n + DaysToMonth(year, month - 1), year, month - 1, last);
      assert DaysToMonth(year, month) == DaysToMonth(year, month - 1) + last;
    }
  }

  function DaysInYear(year: int): int { if Leap(year) then 366 else 365 }

  lemma DaysToYearNext(year: int)
    ensures DaysToYear(year) == DaysToYear(year - 1) + DaysInYear(year - 1)
  {
    LeapDaysNext(year - 1);
  }

  lemma YearEnds(n: nat, year: int, next: int)
    requires DateOf(n) == Date(year, 1, 1) && next == n + DaysInYear(year)
    ensures next >= 0 && DateOf(next) == Date(year + 1, 1, 1)
  {
    MonthStarts(n, year, 12);
    var december := n + DaysToMonth(year, 12);
    DayOfMonth(december, year, 12, 31);
    assert DateOf(december + 31) == NextDay(DateOf(december + 30));
  }

  lemma {:induction false} YearStarts(year: int)
    requires year >= 1000
    ensures DaysToYear(year) >= 0 && DateOf(DaysToYear(year)) == Date(year, 1, 1)
  {
    if year > 1000 {
      YearStarts(year - 1);
      DaysToYearNext(year);
      YearEnds(DaysToYear(year - 1), year - 1, DaysToYear(year));
    }
  }

  /** The number of a day by the Gregorian rule: 365 days a year, one more in every fourth but
      the hundredths that are not four hundredths, and the months' lengths. */
  lemma DayNumber(d: Date)
    requires Real(d)
    ensures
      var n := DaysToYear(d.year) + DaysToMonth(d.year, d.month) + d.day - 1;
      n >= 0 && DateOf(n) == d
  {
    YearStarts(d.year);
    var n := DaysToYear(d.year);
    MonthStarts(n, d.year, d.month);
    DayOfMonth(n + DaysToMonth(d.year, d.month), d.year, d.month, d.day);
  }

  // ----- text

  /** Dictionary order. */
  predicate Less(s: string, t: string) {
    t != [] && (s == [] || s[0] < t[0] || (s[0] == t[0] && Less(s[1..], t[1..])))
  }

  function Digit(n: int): char
    requires 0 <= n < 10
  {
    '0' + n as char
  }

  /** A number in a fixed number of decimal digits. */
  function Pad(width: nat, n: nat): string {
    if width == 0 then [] else Pad(width - 1, n / 10) + [Digit(n % 10)]
  }

  function Power10(width: nat): nat {
    if width == 0 then 1 else 10 * Power10(width - 1)
  }

  lemma LessCons(c: char, s: string, d: char, t: string)
    ensures Less([c] + s, [d] + t) <==> c < d || (c == d && Less(s, t))
  {
    assert ([c] + s)[1..] == s && ([d] + t)[1..] == t;
  }

  /** Padded numbers compare as numbers, and on a tie what follows them decides. */
  lemma {:induction false} PadLess(width: nat, a: nat, b: nat, s: string, t: string)
    requires a < Power10(width) && b < Power10(width)
    ensures Less(Pad(width, a) + s, Pad(width, b) + t) <==> a < b || (a == b && Less(s, t))
  {
    if width == 0 {
      assert Pad(0, a) + s == s && Pad(0, b) + t == t;
    } else {
      var x, y := [Digit(a % 10)] + s, [Digit(b % 10)] + t;
      PadLess(width - 1, a / 10, b / 10, x, y);
      LessCons(Digit(a % 10), s, Digit(b % 10), t);
      assert Pad(width, a) + s == Pad(width - 1, a / 10) + x;
      assert Pad(width, b) + t == Pad(width - 1, b / 10) + y;
    }
  }

  /** The fields of a minute, as `%Y-%m-%dT%H:%M` writes them. */
  function Written(d: Date, hour: nat, minute: nat): string
    requires Real(d)
  {
    Pad(4, d.year) + (['-'] + (Pad(2, d.month) + (['-'] + (Pad(2, d.day)
      + (['T'] + (Pad(2, hour) + ([':'] + Pad(2, minute))))))))
  }

  lemma Powers()
    ensures Power10(2) == 100 && Power10(4) == 10000
  {
    assert Power10(1) == 10 && Power10(3) == 1000;
  }

  lemma WrittenLess(d: Date, h: nat, m: nat, e: Date, i: nat, n: nat)
    requires Real(d) && Real(e) && d.year <= 9999 && e.year <= 9999
    requires h < 24 && i < 24 && m < 60 && n < 60
    ensures Less(Written(d, h, m), Written(e, i, n))
        <==> Earlier(d, e) || (d == e && (h < i || (h == i && m < n)))
  {
    Powers();
    var m5, n5 := Pad(2, m), Pad(2, n);
    PadLess(2, m, n, [], []);
    assert m5 + [] == m5 && n5 + [] == n5;
    var h4, i4 := Pad(2, h) + ([':'] + m5), Pad(2, i) + ([':'] + n5);
    LessCons(':', m5, ':', n5);
    PadLess(2, h, i, [':'] + m5, [':'] + n5);
    LessCons('T', h4, 'T', i4);
    var d3, e3 := Pad(2, d.day) + (['T'] + h4), Pad(2, e.day) + (['T'] + i4);
    PadLess(2, d.day, e.day, ['T'] + h4, ['T'] + i4);
    LessCons('-', d3, '-', e3);
    var d2, e2 := Pad(2, d.month) + (['-'] + d3), Pad(2, e.month) + (['-'] + e3);
    PadLess(2, d.month, e.month, ['-'] + d3, ['-'] + e3);
    LessCons('-', d2, '-', e2);
    PadLess(4, d.year, e.year, ['-'] + d2, ['-'] + e2);
  }

  // ----- instants

  function MinuteOf(t: nat): nat { t / MICROS_PER_MINUTE }

  /** The text of the minute an instant falls in. */
  function Text(t: nat): string {
    var minute := MinuteOf(t);
    Written(DateOf(minute / 1440), minute / 60 % 24, minute % 60)
  }

  /** The years a four-digit text can name. */
  predicate FourDigitYear(t: nat) {
    DateOf(MinuteOf(t) / 1440).year <= 9999
  }

  // ----- reading a text

  /** The number a string of digits stands for. */
  function ReadDigits(s: string): int {
    if s == [] then 0 else 10 * ReadDigits(s[..|s| - 1]) + (s[|s| - 1] as int - '0' as int)
  }

  lemma {:induction false} PadReads(width: nat, n: nat)
    requires n < Power10(width)
    ensures |Pad(width, n)| == width && ReadDigits(Pad(width, n)) == n
  {
    if width > 0 {
      PadReads(width - 1, n / 10);
    }
  }

  /** The digits from one place to another are this number's. */
  predicate HasNumber(s: string, from: nat, to: nat, n: int) {
    from <= to <= |s| && ReadDigits(s[from..to]) == n
  }

  lemma PaddedAt(s: string, from: nat, width: nat, n: nat)
    requires from + width <= |s| && n < Power10(width) && s[from..from + width] == Pad(width, n)
    ensures HasNumber(s, from, from + width, n)
  {
    PadReads(width, n);
  }

  /** The fields of a text, each at its place and set off by the signs of the format. */
  ghost predicate Spells(s: string, d: Date, hour: int, minute: int) {
    && |s| == 16 && s[4] == s[7] == '-' && s[10] == 'T' && s[13] == ':'
    && HasNumber(s, 0, 4, d.year) && HasNumber(s, 5, 7, d.month) && HasNumber(s, 8, 10, d.day)
    && HasNumber(s, 11, 13, hour) && HasNumber(s, 14, 16, minute)
  }

  lemma WrittenSpells(d: Date, hour: nat, minute: nat)
    requires Real(d) && d.year <= 9999 && hour < 24 && minute < 60
    ensures Spells(Written(d, hour, minute), d, hour, minute)
  {
    Powers();
    PadReads(4, d.year);
    PadReads(2, d.month);
    PadReads(2, d.day);
    PadReads(2, hour);
    PadReads(2, minute);
    Fields(Pad(4, d.year), Pad(2, d.month), Pad(2, d.day), Pad(2, hour), Pad(2, minute));
    var s := Written(d, hour, minute);
    PaddedAt(s, 0, 4, d.year);
    PaddedAt(s, 5, 2, d.month);
    PaddedAt(s, 8, 2, d.day);
    PaddedAt(s, 11, 2, hour);
    PaddedAt(s, 14, 2, minute);
  }

  lemma Fields(a: string, b: string, c: string, d: string, e: string)
    requires |a| == 4 && |b| == |c| == |d| == |e| == 2
    ensures
      var s := a + (['-'] + (b + (['-'] + (c + (['T'] + (d + ([':'] + e)))))));
      && |s| == 16 && s[4] == s[7] == '-' && s[10] == 'T' && s[13] == ':'
      && s[0..4] == a && s[5..7] == b && s[8..10] == c && s[11..13] == d && s[14..16] == e
  {
  }

  /** The text of an instant spells its date, hour and minute. */
  lemma TextSpells(t: nat)
    requires FourDigitYear(t)
    ensures
      var minute := MinuteOf(t);
      Spells(Text(t), DateOf(minute / 1440), minute / 60 % 24, minute % 60)
  {
    var minute := MinuteOf(t);
    WrittenSpells(DateOf(minute / 1440), minute / 60 % 24, minute % 60);
  }

  /** Text order is time order. */
  lemma TextOrderIsTimeOrder(a: nat, b: nat)
    requires FourDigitYear(a) && FourDigitYear(b)
    ensures Less(Text(a), Text(b)) <==> MinuteOf(a) < MinuteOf(b)
  {
    var x, y := MinuteOf(a), MinuteOf(b);
    var d, e := x / 1440, y / 1440;
    if d < e { DatesAdvance(d, e); }
    if e < d { DatesAdvance(e, d); }
    WrittenLess(DateOf(d), x / 60 % 24, x % 60, DateOf(e), y / 60 % 24, y % 60);
    MinuteFields(x);
    MinuteFields(y);
  }

  lemma MinuteFields(x: nat)
    ensures x == 1440 * (x / 1440) + 60 * (x / 60 % 24) + x % 60
  {
    assert x / 60 / 24 == x / 1440;
  }

  /** Different minutes have different names. */
  lemma TextIsInjective(a: nat, b: nat)
    requires FourDigitYear(a) && FourDigitYear(b) && Text(a) == Text(b)
    ensures MinuteOf(a) == MinuteOf(b)
  {
    TextOrderIsTimeOrder(a, b);
    TextOrderIsTimeOrder(b, a);
    TextOrderIsTimeOrder(a, a);
  }

  // ----- hours

  const MICROS_PER_HOUR: int := 60 * MICROS_PER_MINUTE

  /** The fields of an hour, as `%Y-%m-%dT%H` writes them. */
  function WrittenHour(d: Date, hour: nat): string
    requires Real(d)
  {
    Pad(4, d.year) + (['-'] + (Pad(2, d.month) + (['-'] + (Pad(2, d.day) + (['T'] + Pad(2, hour))))))
  }

  /** The text of the hour with this number. */
  function HourText(hour: nat): string { WrittenHour(DateOf(hour / 24), hour % 24) }

  predicate FourDigitHour(hour: nat) { DateOf(hour / 24).year <= 9999 }

  lemma HourThenMinute(d: Date, hour: nat, minute: nat)
    requires Real(d)
    ensures Written(d, hour, minute) == WrittenHour(d, hour) + ([':'] + Pad(2, minute))
  {
    var rest := [':'] + Pad(2, minute);
    var a := Pad(2, hour);
    var b := Pad(2, d.day) + (['T'] + a);
    var c := Pad(2, d.month) + (['-'] + b);
    JoinField(Pad(2, d.day), 'T', a, rest);
    JoinField(Pad(2, d.month), '-', b, rest);
    JoinField(Pad(4, d.year), '-', c, rest);
  }

  lemma JoinField(field: string, mark: char, more: string, rest: string)
    ensures field + ([mark] + (more + rest)) == field + ([mark] + more) + rest
  {
    Associative([mark], more, rest);
    Associative(field, [mark] + more, rest);
  }

  lemma HourStart(hour: nat)
    ensures
      var t := hour * MICROS_PER_HOUR;
      && MinuteOf(t) == 60 * hour
      && Text(t) == HourText(hour) + ([':'] + Pad(2, 0))
      && (FourDigitYear(t) <==> FourDigitHour(hour))
  {
    assert 60 * hour / 1440 == hour / 24 && 60 * hour / 60 == hour && 60 * hour % 60 == 0;
    HourThenMinute(DateOf(hour / 24), hour % 24, 0);
  }

  /** Different hours have different names. */
  lemma HourTextIsInjective(a: nat, b: nat)
    requires FourDigitHour(a) && FourDigitHour(b) && HourText(a) == HourText(b)
    ensures a == b
  {
    HourStart(a);
    HourStart(b);
    TextIsInjective(a * MICROS_PER_HOUR, b * MICROS_PER_HOUR);
  }
}
