/** Local calendar arithmetic as the application uses it through JavaScript's `Date`:
    a calendar day is a (year, month, day) triple with a 0-based month, as `getFullYear`,
    `getMonth` and `getDate` report it; `DayNumber` counts days from 1970-01-01, and a
    `Moment` (a `Date` value) is a calendar day together with the milliseconds since its
    local midnight. */
module Dates {

  const MsPerDay: int := 86400000

  /** A calendar day; `month` is 0 for January as in `Date.prototype.getMonth`. */
  datatype CivilDate = CivilDate(year: int, month: int, day: int)

  /** A `Date` value in local time: its calendar day and the time of day in milliseconds. */
  datatype Moment = Moment(date: CivilDate, ms: int)

  predicate IsLeapYear(y: int) {
    y % 4 == 0 && (y % 100 != 0 || y % 400 == 0)
  }

  function DaysInYear(y: int): int {
    if IsLeapYear(y) then 366 else 365
  }

  function DaysInMonth(y: int, m: int): (n: int)
    requires 0 <= m < 12
    ensures 28 <= n <= 31
  {
    if m == 1 then (if IsLeapYear(y) then 29 else 28)
    else if m == 3 || m == 5 || m == 8 || m == 10 then 30
    else 31
  }

  predicate Valid(d: CivilDate) {
    0 <= d.month < 12 && 1 <= d.day <= DaysInMonth(d.year, d.month)
  }

  predicate ValidMoment(t: Moment) {
    Valid(t.date) && 0 <= t.ms < MsPerDay
  }

  /** Number of leap years y' with 0 <= y' < y (its negation for y < 0); Euclidean division
      by a positive constant is floor division, so this holds for every integer. */
  function LeapsBefore(y: int): int {
    (y + 3) / 4 - (y + 99) / 100 + (y + 399) / 400
  }

  /** Days from 1970-01-01 to the first of January of year y. */
  function DaysBeforeYear(y: int): int {
    365 * (y - 1970) + LeapsBefore(y) - LeapsBefore(1970)
  }

  const CumulativeDays: seq<int> := [0, 31, 59, 90, 120, 151, 181, 212, 243, 273, 304, 334]

  /** Days from the first of January to the first of month m of year y. */
  function DaysBeforeMonth(y: int, m: int): int
    requires 0 <= m < 12
  {
    CumulativeDays[m] + (if m >= 2 && IsLeapYear(y) then 1 else 0)
  }

  /** Days since 1970-01-01 (negative before it). */
  function DayNumber(d: CivilDate): int
    requires 0 <= d.month < 12
  {
    DaysBeforeYear(d.year) + DaysBeforeMonth(d.year, d.month) + d.day - 1
  }

  /** `Date.prototype.getDay`: 0 is Sunday; 1970-01-01 was a Thursday. */
  function Weekday(d: CivilDate): (w: int)
    requires 0 <= d.month < 12
    ensures 0 <= w < 7
  {
    (DayNumber(d) + 4) % 7
  }

  /** Milliseconds since 1970-01-01 00:00 local time, the value `Date` comparisons use. */
  function Stamp(t: Moment): int
    requires 0 <= t.date.month < 12
  {
    DayNumber(t.date) * MsPerDay + t.ms
  }

  /** Calendar order of two days. */
  predicate Before(a: CivilDate, b: CivilDate) {
    a.year < b.year || (a.year == b.year && (a.month < b.month || (a.month == b.month && a.day < b.day)))
  }

  lemma LeapStep(y: int)
    ensures LeapsBefore(y + 1) - LeapsBefore(y) == if IsLeapYear(y) then 1 else 0
  {
    CountStep(y, 4);
    CountStep(y, 100);
    CountStep(y, 400);
    MultipleOfMultiple(y, 100, 4);
    MultipleOfMultiple(y, 400, 100);
  }

  /** A multiple of 100 is a multiple of 4, and one of 400 a multiple of 100. */
  lemma MultipleOfMultiple(y: int, k: int, d: int)
    requires (k == 100 && d == 4) || (k == 400 && d == 100)
    ensures y % k == 0 ==> y % d == 0
  {
    if y % k == 0 {
      var q := y / k;
      assert y == d * ((k / d) * q);
    }
  }

  /** The number of multiples of k below y + 1 (shifted as in `LeapsBefore`) grows by one exactly
      when y is one of them. */
  lemma CountStep(y: int, k: int)
    requires k == 4 || k == 100 || k == 400
    ensures (y + k) / k - (y + k - 1) / k == if y % k == 0 then 1 else 0
  {
    var q, r := y / k, y % k;
    assert y == k * q + r && 0 <= r < k;
    assert (y + k) / k == q + 1 by {
      assert y + k == k * (q + 1) + r;
    }
    if r == 0 {
      assert (y + k - 1) / k == q by {
        assert y + k - 1 == k * q + (k - 1);
      }
    } else {
      assert (y + k - 1) / k == q + 1 by {
        assert y + k - 1 == k * (q + 1) + (r - 1);
      }
    }
  }

  lemma YearStep(y: int)
    ensures DaysBeforeYear(y + 1) == DaysBeforeYear(y) + DaysInYear(y)
  {
    LeapStep(y);
  }

  /** Every year has at least 365 days, so the first of January moves forward by at least that. */
  lemma {:induction false} YearsApart(y1: int, y2: int)
    requires y1 <= y2
    ensures DaysBeforeYear(y2) - DaysBeforeYear(y1) >= 365 * (y2 - y1)
    decreases y2 - y1
  {
    if y1 < y2 {
      YearsApart(y1, y2 - 1);
      YearStep(y2 - 1);
    }
  }

  lemma MonthStep(y: int, m: int)
    requires 0 <= m < 12
    ensures m < 11 ==> DaysBeforeMonth(y, m + 1) == DaysBeforeMonth(y, m) + DaysInMonth(y, m)
    ensures m == 11 ==> DaysBeforeMonth(y, m) + DaysInMonth(y, m) == DaysInYear(y)
  {
  }

  /** Months of one year are laid out one after another. */
  lemma {:induction false} MonthsApart(y: int, m1: int, m2: int)
    requires 0 <= m1 < m2 < 12
    ensures DaysBeforeMonth(y, m1) + DaysInMonth(y, m1) <= DaysBeforeMonth(y, m2)
    decreases m2 - m1
  {
    MonthStep(y, m1);
    if m1 + 1 < m2 {
      MonthsApart(y, m1 + 1, m2);
      MonthStep(y, m1 + 1);
    }
  }

  /** A valid day of year y lies in that year's span of day numbers. */
  lemma DayNumberInYear(d: CivilDate)
    requires Valid(d)
    ensures DaysBeforeYear(d.year) <= DayNumber(d) < DaysBeforeYear(d.year + 1)
  {
    YearStep(d.year);
    if d.month < 11 {
      MonthsApart(d.year, d.month, 11);
    }
    MonthStep(d.year, 11);
  }

  /** Day numbers follow calendar order: `DayNumber` is strictly increasing on valid days. */
  lemma DayNumberOrder(a: CivilDate, b: CivilDate)
    requires Valid(a) && Valid(b) && Before(a, b)
    ensures DayNumber(a) < DayNumber(b)
  {
    if a.year < b.year {
      DayNumberInYear(a);
      DayNumberInYear(b);
      YearsApart(a.year + 1, b.year);
    } else if a.month < b.month {
      MonthsApart(a.year, a.month, b.month);
    }
  }

  /** Two valid days with the same day number are the same day. */
  lemma DayNumberInjective(a: CivilDate, b: CivilDate)
    requires Valid(a) && Valid(b) && DayNumber(a) == DayNumber(b)
    ensures a == b
  {
    if Before(a, b) {
      DayNumberOrder(a, b);
    } else if Before(b, a) {
      DayNumberOrder(b, a);
    }
  }

  /** `setDate(getDate() + 1)`: the following calendar day. */
  function NextDay(d: CivilDate): (r: CivilDate)
    requires Valid(d)
    ensures Valid(r) && DayNumber(r) == DayNumber(d) + 1
  {
    if d.day < DaysInMonth(d.year, d.month) then CivilDate(d.year, d.month, d.day + 1)
    else if d.month < 11 then MonthStep(d.year, d.month); CivilDate(d.year, d.month + 1, 1)
    else MonthStep(d.year, 11); YearStep(d.year); CivilDate(d.year + 1, 0, 1)
  }

  /** `setDate(getDate() - 1)`: the preceding calendar day. */
  function PrevDay(d: CivilDate): (r: CivilDate)
    requires Valid(d)
    ensures Valid(r) && DayNumber(r) == DayNumber(d) - 1
  {
    if d.day > 1 then CivilDate(d.year, d.month, d.day - 1)
    else if d.month > 0 then MonthStep(d.year, d.month - 1); CivilDate(d.year, d.month - 1, DaysInMonth(d.year, d.month - 1))
    else MonthStep(d.year - 1, 11); YearStep(d.year - 1); CivilDate(d.year - 1, 11, 31)
  }

  /** `setDate(getDate() + k)`: the day k days later (earlier when k < 0), rolling over
      month and year ends. */
  function AddDays(d: CivilDate, k: int): (r: CivilDate)
    requires Valid(d)
    ensures Valid(r) && DayNumber(r) == DayNumber(d) + k
    decreases if k < 0 then -k else k
  {
    if k == 0 then d
    else if k > 0 then AddDays(NextDay(d), k - 1)
    else AddDays(PrevDay(d), k + 1)
  }

  /** Moving by `t - getDay()` days lands on the day of the same Sunday-to-Saturday week whose
      `getDay()` is t. */
  lemma ShiftToWeekday(d: CivilDate, t: int)
    requires Valid(d) && 0 <= t < 7
    ensures Weekday(AddDays(d, t - Weekday(d))) == t
    ensures DayNumber(AddDays(d, t - Weekday(d))) - t == DayNumber(d) - Weekday(d)
  {
    ResidueShift(DayNumber(d), t);
  }

  /** The arithmetic behind `ShiftToWeekday`: n - (n + 4) % 7 is 3 more than a multiple of 7. */
  lemma ResidueShift(n: int, t: int)
    requires 0 <= t < 7
    ensures (n + (t - (n + 4) % 7) + 4) % 7 == t
  {
    var q := (n + 4) / 7;
    assert n + 4 - (n + 4) % 7 == 7 * q;
    assert n + (t - (n + 4) % 7) + 4 == 7 * q + t;
  }

  /** The two-digit-year rule of the `Date(year, month, day)` constructor. */
  function FullYear(y: int): int {
    if 0 <= y <= 99 then 1900 + y else y
  }

  /** `new Date(year, monthIndex, day)`: month and day outside their ranges roll over into
      neighbouring months and years instead of being rejected. The time of day is midnight. */
  function MakeDate(year: int, monthIndex: int, day: int): (r: CivilDate)
    ensures Valid(r)
    ensures DayNumber(r) == DayNumber(CivilDate(FullYear(year) + monthIndex / 12, monthIndex % 12, 1)) + day - 1
  {
    AddDays(CivilDate(FullYear(year) + monthIndex / 12, monthIndex % 12, 1), day - 1)
  }

  /** A day that no month overflows only moves the month index into range. */
  lemma MakeDateEarlyDay(year: int, monthIndex: int, day: int)
    requires 1 <= day <= 28
    ensures MakeDate(year, monthIndex, day) == CivilDate(FullYear(year) + monthIndex / 12, monthIndex % 12, day)
  {
    var y, m := FullYear(year) + monthIndex / 12, monthIndex % 12;
    var r := MakeDate(year, monthIndex, day);
    assert DayNumber(r) == DayNumber(CivilDate(y, m, 1)) + day - 1;
    assert DayNumber(CivilDate(y, m, day)) == DayNumber(CivilDate(y, m, 1)) + day - 1;
    DayNumberInjective(r, CivilDate(y, m, day));
  }

  /** In-range arguments are taken as they are. */
  lemma MakeDateInRange(year: int, monthIndex: int, day: int)
    requires year == FullYear(year) && Valid(CivilDate(year, monthIndex, day))
    ensures MakeDate(year, monthIndex, day) == CivilDate(year, monthIndex, day)
  {
    assert monthIndex / 12 == 0 && monthIndex % 12 == monthIndex;
    var r := MakeDate(year, monthIndex, day);
    assert DayNumber(r) == DayNumber(CivilDate(year, monthIndex, 1)) + day - 1;
    DayNumberInjective(r, CivilDate(year, monthIndex, day));
  }

  /** Day 0 of the next month is the last day of this month (`new Date(y, m + 1, 0)`). */
  lemma LastDayOfMonth(year: int, month: int)
    requires year == FullYear(year) && 0 <= month < 12
    ensures MakeDate(year, month + 1, 0) == CivilDate(year, month, DaysInMonth(year, month))
  {
    var dim := DaysInMonth(year, month);
    var last := CivilDate(year, month, dim);
    var r := MakeDate(year, month + 1, 0);
    assert DayNumber(last) == DaysBeforeYear(year) + DaysBeforeMonth(year, month) + dim - 1;
    MonthStep(year, month);
    if month == 11 {
      assert (month + 1) / 12 == 1 && (month + 1) % 12 == 0;
      YearStep(year);
      assert DayNumber(r) == DaysBeforeYear(year + 1) - 1;
    } else {
      assert (month + 1) / 12 == 0 && (month + 1) % 12 == month + 1;
      assert DayNumber(r) == DaysBeforeYear(year) + DaysBeforeMonth(year, month + 1) - 1;
    }
    DayNumberInjective(r, last);
  }

  /** Two valid days of the same month number whose day numbers are less than 334 apart
      belong to the same year. */
  lemma {:induction false} SameMonthNearby(a: CivilDate, b: CivilDate)
    requires Valid(a) && Valid(b) && a.month == b.month
    requires -334 < DayNumber(a) - DayNumber(b) < 334
    ensures a.year == b.year
  {
    if a.year < b.year {
      FarApart(a, b);
    } else if b.year < a.year {
      FarApart(b, a);
    }
  }

  lemma FarApart(a: CivilDate, b: CivilDate)
    requires Valid(a) && Valid(b) && a.month == b.month && a.year < b.year
    ensures DayNumber(b) - DayNumber(a) >= 334
  {
    YearStep(a.year);
    YearsApart(a.year + 1, b.year);
  }
}
