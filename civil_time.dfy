/**
 * Proleptic Gregorian calendar arithmetic shared by the backend and the
 * browser app: civil dates, times of day, day numbers counted from
 * 1970-01-01, weekdays, and the day and month steps that Python's
 * `timedelta` and `dateutil.relativedelta` perform.
 *
 * Time zones are not modelled: every instant is read in one fixed zone.
 */
module CivilTime {

  datatype Date = Date(year: int, month: int, day: int)

  /** A naive date-time with microsecond resolution (JavaScript milliseconds are `micro / 1000`). */
  datatype DateTime = DateTime(date: Date, hour: int, minute: int, second: int, micro: int)

  predicate IsLeapYear(y: int) {
    y % 4 == 0 && (y % 100 != 0 || y % 400 == 0)
  }

  function DaysInMonth(y: int, m: int): (r: int)
    requires 1 <= m <= 12
    ensures 28 <= r <= 31
    ensures r == 29 <==> m == 2 && IsLeapYear(y)
  {
    if m == 2 then (if IsLeapYear(y) then 29 else 28)
    else if m == 4 || m == 6 || m == 9 || m == 11 then 30
    else 31
  }

  function DaysInYear(y: int): int {
    if IsLeapYear(y) then 366 else 365
  }

  predicate ValidDate(d: Date) {
    1 <= d.month <= 12 && 1 <= d.day <= DaysInMonth(d.year, d.month)
  }

  predicate ValidTime(t: DateTime) {
    ValidDate(t.date) && 0 <= t.hour < 24 && 0 <= t.minute < 60 && 0 <= t.second < 60
    && 0 <= t.micro < 1000000
  }

  /** Leap years strictly before year `y`, counted from an arbitrary but fixed origin. */
  function LeapsBefore(y: int): int {
    (y - 1) / 4 - (y - 1) / 100 + (y - 1) / 400
  }

  /** Days from 1970-01-01 to January 1st of year `y` (negative before 1970). */
  function DaysBeforeYear(y: int): int {
    365 * (y - 1970) + LeapsBefore(y) - LeapsBefore(1970)
  }

  /** Days from January 1st to the first day of month `m` of year `y`. */
  function DaysBeforeMonth(y: int, m: int): int
    requires 1 <= m <= 12
  {
    var common :=
      if m == 1 then 0 else if m == 2 then 31 else if m == 3 then 59
      else if m == 4 then 90 else if m == 5 then 120 else if m == 6 then 151
      else if m == 7 then 181 else if m == 8 then 212 else if m == 9 then 243
      else if m == 10 then 273 else if m == 11 then 304 else 334;
    if m > 2 && IsLeapYear(y) then common + 1 else common
  }

  /** Days from 1970-01-01 to `d`: the chronological position of a date. */
  function DayNumber(d: Date): int
    requires 1 <= d.month <= 12
  {
    DaysBeforeYear(d.year) + DaysBeforeMonth(d.year, d.month) + d.day - 1
  }

  /** Microseconds from 1970-01-01 00:00 to `t`: the order in which Python and JavaScript compare date-times. */
  function Instant(t: DateTime): int
    requires 1 <= t.date.month <= 12
  {
    DayNumber(t.date) * 86400000000 + TimeOfDay(t)
  }

  function TimeOfDay(t: DateTime): int {
    ((t.hour * 60 + t.minute) * 60 + t.second) * 1000000 + t.micro
  }

  /** Stepping from `y - 1` to `y` raises `y / k` exactly when `k` divides `y`. */
  lemma DivStep(y: int, k: int)
    requires k == 4 || k == 100 || k == 400
    ensures y / k - (y - 1) / k == if y % k == 0 then 1 else 0
  {
    var q, r := (y - 1) / k, (y - 1) % k;
    assert y - 1 == k * q + r && 0 <= r < k;
    if r == k - 1 {
      assert y == k * (q + 1);
    } else {
      assert y == k * q + (r + 1) && 0 < r + 1 < k;
    }
  }

  /** Multiples of 400 are multiples of 100, and multiples of 100 are multiples of 4. */
  lemma Multiples(y: int)
    ensures y % 400 == 0 ==> y % 100 == 0
    ensures y % 100 == 0 ==> y % 4 == 0
  {
    if y % 400 == 0 {
      var q := y / 400;
      assert y == 100 * (4 * q);
    }
    if y % 100 == 0 {
      var q := y / 100;
      assert y == 4 * (25 * q);
    }
  }

  lemma LeapsStep(y: int)
    ensures LeapsBefore(y + 1) - LeapsBefore(y) == if IsLeapYear(y) then 1 else 0
  {
    DivStep(y, 4);
    DivStep(y, 100);
    DivStep(y, 400);
    assert LeapsBefore(y + 1) == y / 4 - y / 100 + y / 400;
    Multiples(y);
  }

  lemma YearStep(y: int)
    ensures DaysBeforeYear(y + 1) == DaysBeforeYear(y) + DaysInYear(y)
  {
    LeapsStep(y);
  }

  /** The day that follows `d` in the calendar. */
  function NextDay(d: Date): (r: Date)
    requires ValidDate(d)
    ensures ValidDate(r) && DayNumber(r) == DayNumber(d) + 1
  {
    if d.day < DaysInMonth(d.year, d.month) then Date(d.year, d.month, d.day + 1)
    else if d.month < 12 then Date(d.year, d.month + 1, 1)
    else
      YearStep(d.year);
      Date(d.year + 1, 1, 1)
  }

  /** The day that precedes `d` in the calendar. */
  function PrevDay(d: Date): (r: Date)
    requires ValidDate(d)
    ensures ValidDate(r) && DayNumber(r) == DayNumber(d) - 1
  {
    if d.day > 1 then Date(d.year, d.month, d.day - 1)
    else if d.month > 1 then Date(d.year, d.month - 1, DaysInMonth(d.year, d.month - 1))
    else
      YearStep(d.year - 1);
      Date(d.year - 1, 12, 31)
  }

  /** `d + timedelta(days=n)`: the date `n` days later (earlier when `n` is negative). */
  function AddDays(d: Date, n: int): (r: Date)
    requires ValidDate(d)
    ensures ValidDate(r) && DayNumber(r) == DayNumber(d) + n
    decreases if n < 0 then -n else n
  {
    if n == 0 then d
    else if n > 0 then AddDays(NextDay(d), n - 1)
    else AddDays(PrevDay(d), n + 1)
  }

  function AddDaysTime(t: DateTime, n: int): (r: DateTime)
    requires ValidTime(t)
    ensures ValidTime(r) && Instant(r) == Instant(t) + n * 86400000000
    ensures TimeOfDay(r) == TimeOfDay(t) && DayNumber(r.date) == DayNumber(t.date) + n
  {
    t.(date := AddDays(t.date, n))
  }

  /** Python's `date.weekday()`: Monday is 0 and Sunday is 6 (1970-01-01 was a Thursday). */
  function Weekday(d: Date): (r: int)
    requires 1 <= d.month <= 12
    ensures 0 <= r < 7
  {
    (DayNumber(d) + 3) % 7
  }

  /** JavaScript's `Date.prototype.getDay()`: Sunday is 0 and Saturday is 6. */
  function JsDay(d: Date): (r: int)
    requires 1 <= d.month <= 12
    ensures 0 <= r < 7 && r == (Weekday(d) + 1) % 7
  {
    (DayNumber(d) + 4) % 7
  }

  lemma ModShift(x: int, k: int)
    ensures (x + k) % 7 == (x % 7 + k) % 7
  {
    var q := x / 7;
    assert x == 7 * q + x % 7;
    assert (x + k) == 7 * q + (x % 7 + k);
  }

  /** Moving `k` days moves the weekday by `k` modulo 7. */
  lemma WeekdayShift(d: Date, r: Date, k: int)
    requires 1 <= d.month <= 12 && 1 <= r.month <= 12
    requires DayNumber(r) == DayNumber(d) + k
    ensures Weekday(r) == (Weekday(d) + k) % 7
  {
    ModShift(DayNumber(d) + 3, k);
  }

  /** A week later is the same weekday. */
  lemma WeekdayPeriodic(a: Date, b: Date)
    requires 1 <= a.month <= 12 && 1 <= b.month <= 12
    requires DayNumber(b) == DayNumber(a) + 7
    ensures Weekday(b) == Weekday(a)
  {
    var x := DayNumber(a) + 3;
    assert (x + 7) % 7 == x % 7;
  }

  /** `d - timedelta(days=d.weekday())`: the Monday that starts the week of `d`. */
  function MondayOf(d: Date): (r: Date)
    requires ValidDate(d)
    ensures ValidDate(r) && Weekday(r) == 0
    ensures DayNumber(r) == DayNumber(d) - Weekday(d)
  {
    var r := AddDays(d, -Weekday(d));
    WeekdayShift(d, r, -Weekday(d));
    r
  }

  /** A later date never has an earlier Monday. */
  lemma MondayOfMonotone(a: Date, b: Date)
    requires ValidDate(a) && ValidDate(b) && DayNumber(a) <= DayNumber(b)
    ensures DayNumber(MondayOf(a)) <= DayNumber(MondayOf(b))
  {
    MondayNumberMonotone(DayNumber(a), DayNumber(b), Weekday(a), Weekday(b));
  }

  /** The day number of the Monday on or before day `p`, as `MondayOf` computes it, grows with `p`. */
  lemma MondayNumberMonotone(p: int, q: int, wp: int, wq: int)
    requires p <= q && wp == (p + 3) % 7 && wq == (q + 3) % 7
    ensures p - wp <= q - wq
  {
    var x, y := p + 3, q + 3;
    assert x == 7 * (x / 7) + x % 7 && y == 7 * (y / 7) + y % 7;
  }

  /** `d + timedelta(days=6 - d.weekday())`: the Sunday that ends the week of `d`. */
  function SundayOf(d: Date): (r: Date)
    requires ValidDate(d)
    ensures ValidDate(r) && Weekday(r) == 6
    ensures DayNumber(d) <= DayNumber(r) <= DayNumber(d) + 6
    ensures DayNumber(r) == DayNumber(MondayOf(d)) + 6
  {
    var r := AddDays(d, 6 - Weekday(d));
    WeekdayShift(d, r, 6 - Weekday(d));
    r
  }

  lemma WeekOffset(m: int, x: int)
    requires (m + 3) % 7 == 0 && m <= x <= m + 6
    ensures (x + 3) % 7 == x - m
  {
    ModShift(m + 3, x - m);
  }

  /** Two Monday day numbers less than a week apart are the same. */
  lemma MondaysApart(m: int, x: int)
    requires (m + 3) % 7 == 0 && (x + 3) % 7 == 0 && m <= x < m + 7
    ensures x == m
  {
    WeekOffset(m, x);
  }

  /** Two Mondays less than a week apart are the same date. */
  lemma MondaysWithinWeek(a: Date, b: Date)
    requires ValidDate(a) && ValidDate(b) && Weekday(a) == 0 && Weekday(b) == 0
    requires DayNumber(a) <= DayNumber(b) < DayNumber(a) + 7
    ensures a == b
  {
    MondaysApart(DayNumber(a), DayNumber(b));
    DayNumberInjective(a, b);
  }

  /** Two dates in the same week (Monday to Sunday) share their Monday. */
  lemma SameWeekSameMonday(a: Date, b: Date)
    requires ValidDate(a) && ValidDate(b)
    requires DayNumber(MondayOf(a)) <= DayNumber(b) <= DayNumber(MondayOf(a)) + 6
    ensures MondayOf(b) == MondayOf(a)
  {
    MondayNumber(a, b);
    DayNumberInjective(MondayOf(b), MondayOf(a));
  }

  /** The day number of `b`'s Monday, when `b` lies in the week starting at `a`'s Monday. */
  lemma MondayNumber(a: Date, b: Date)
    requires ValidDate(a) && ValidDate(b)
    requires DayNumber(MondayOf(a)) <= DayNumber(b) <= DayNumber(MondayOf(a)) + 6
    ensures DayNumber(MondayOf(b)) == DayNumber(MondayOf(a))
  {
    WeekdayWithin(MondayOf(a), b);
  }

  /** A day within six days after a Monday is that many days into the week. */
  lemma WeekdayWithin(m: Date, b: Date)
    requires 1 <= m.month <= 12 && 1 <= b.month <= 12 && Weekday(m) == 0
    requires DayNumber(m) <= DayNumber(b) <= DayNumber(m) + 6
    ensures Weekday(b) == DayNumber(b) - DayNumber(m)
  {
    WeekOffset(DayNumber(m), DayNumber(b));
  }

  /** Month index `12 * year + month - 1`, the quantity `relativedelta(months=n)` shifts. */
  function MonthIndex(d: Date): int {
    12 * d.year + d.month - 1
  }

  /** `d + relativedelta(months=n)`: shift the month and clamp the day to the new month's length. */
  function AddMonths(d: Date, n: int): (r: Date)
    requires ValidDate(d)
    ensures ValidDate(r) && MonthIndex(r) == MonthIndex(d) + n
    ensures r.day == if d.day <= DaysInMonth(r.year, r.month) then d.day else DaysInMonth(r.year, r.month)
  {
    var k := MonthIndex(d) + n;
    var y := k / 12;
    var m := k % 12 + 1;
    Date(y, m, if d.day <= DaysInMonth(y, m) then d.day else DaysInMonth(y, m))
  }

  /** The month `m` of year `y` sits at month index `12 * y + m - 1`. */
  lemma MonthIndexSplit(y: int, m: int)
    requires 1 <= m <= 12
    ensures (12 * y + m - 1) / 12 == y && (12 * y + m - 1) % 12 + 1 == m
  {
  }

  // ---- Order and injectivity of day numbers ----

  lemma DayNumberWithinYear(d: Date)
    requires ValidDate(d)
    ensures DaysBeforeYear(d.year) <= DayNumber(d) < DaysBeforeYear(d.year + 1)
  {
    YearStep(d.year);
  }

  lemma {:induction false} DaysBeforeYearMonotone(a: int, b: int)
    requires a < b
    ensures DaysBeforeYear(a) < DaysBeforeYear(b)
    decreases b - a
  {
    YearStep(a);
    if a + 1 < b {
      DaysBeforeYearMonotone(a + 1, b);
    }
  }

  lemma MonthBounds(y: int, m: int, n: int)
    requires 1 <= m < n <= 12
    ensures DaysBeforeMonth(y, m) + DaysInMonth(y, m) <= DaysBeforeMonth(y, n)
  {
  }

  /** A date in an earlier year has a smaller day number. */
  lemma YearOrder(a: Date, b: Date)
    requires ValidDate(a) && ValidDate(b) && a.year < b.year
    ensures DayNumber(a) < DayNumber(b)
  {
    DayNumberWithinYear(a);
    DayNumberWithinYear(b);
    if a.year + 1 < b.year { DaysBeforeYearMonotone(a.year + 1, b.year); }
  }

  /** A later month is a later day: month indices and day numbers are ordered alike. */
  lemma MonthIndexOrder(a: Date, b: Date)
    requires ValidDate(a) && ValidDate(b) && MonthIndex(a) < MonthIndex(b)
    ensures DayNumber(a) < DayNumber(b)
  {
    if a.year < b.year {
      YearOrder(a, b);
    } else {
      assert a.year == b.year && a.month < b.month;
      MonthBounds(a.year, a.month, b.month);
    }
  }

  lemma AddMonthsLater(d: Date, n: int)
    requires ValidDate(d)
    ensures n >= 1 ==> DayNumber(AddMonths(d, n)) > DayNumber(d)
  {
    if n >= 1 { MonthIndexOrder(d, AddMonths(d, n)); }
  }

  /** Distinct valid dates have distinct day numbers. */
  lemma DayNumberInjective(a: Date, b: Date)
    requires ValidDate(a) && ValidDate(b) && DayNumber(a) == DayNumber(b)
    ensures a == b
  {
    if a.year < b.year {
      YearOrder(a, b);
    } else if b.year < a.year {
      YearOrder(b, a);
    } else if a.month < b.month {
      MonthBounds(a.year, a.month, b.month);
    } else if b.month < a.month {
      MonthBounds(a.year, b.month, a.month);
    }
  }

  /** Adding day counts composes. */
  lemma AddDaysAdd(d: Date, a: int, b: int)
    requires ValidDate(d)
    ensures AddDays(AddDays(d, a), b) == AddDays(d, a + b)
  {
    DayNumberInjective(AddDays(AddDays(d, a), b), AddDays(d, a + b));
  }
}
