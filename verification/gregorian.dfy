/**
 Proleptic Gregorian calendar arithmetic, as used by the booking calendar
 through the JavaScript `Date` object: month lengths, day numbers, the
 normalisation `new Date(year, month, day)` applies to out-of-range months
 and days, and the weekday of a day.

 Months are numbered 0..11 (January is 0), as `Date.getMonth` numbers them.
 */
module Gregorian {

  type Month = m: int | 0 <= m < 12

  /** A calendar date; `Valid` says whether its day exists in its month. */
  datatype Date = Date(year: int, month: Month, day: int)

  predicate IsLeap(y: int) {
    y % 4 == 0 && (y % 100 != 0 || y % 400 == 0)
  }

  function YearLength(y: int): int {
    if IsLeap(y) then 366 else 365
  }

  function DaysInMonth(y: int, m: Month): (n: int)
    ensures 28 <= n <= 31
    ensures m == 1 ==> n <= 29 && (n == 29 <==> IsLeap(y))
    ensures m != 1 ==> (n == 30 <==> m in {3, 5, 8, 10})
    ensures n == 31 <==> m in {0, 2, 4, 6, 7, 9, 11}
  {
    if m == 1 then (if IsLeap(y) then 29 else 28)
    else if m == 3 || m == 5 || m == 8 || m == 10 then 30
    else 31
  }

  predicate Valid(d: Date) {
    1 <= d.day <= DaysInMonth(d.year, d.month)
  }

  /** Days from 1 January of year 0 to 1 January of year `y`: the lengths of
      the years in between, summed (and negated for years before 0). */
  function DaysBeforeYear(y: int): int
    decreases if y >= 0 then y else -y
  {
    if y == 0 then 0
    else if y > 0 then DaysBeforeYear(y - 1) + YearLength(y - 1)
    else DaysBeforeYear(y + 1) - YearLength(y)
  }

  /** The closed form `Date` uses for the day on which year `y` starts,
      counted from 1 January 1970 (ECMAScript's DayFromYear); `/` on `int` is
      floor division for a positive divisor, as the formula requires. */
  function DayFromYear(y: int): int {
    365 * (y - 1970) + (y - 1969) / 4 - (y - 1901) / 100 + (y - 1601) / 400
  }

  /** Days from 1 January to the first day of month `m` of year `y`. */
  function DaysBeforeMonth(y: int, m: int): int
    requires 0 <= m <= 12
  {
    [0, 31, 59, 90, 120, 151, 181, 212, 243, 273, 304, 334, 365][m]
      + (if m >= 2 && IsLeap(y) then 1 else 0)
  }

  /** The day number of a date, counted from 1 January of year 0. The day is
      not range-checked: day 0 is the day before the first of the month and
      day 32 runs into the next month, exactly as `Date` normalises them. */
  function DayNumber(y: int, m: Month, d: int): int {
    DaysBeforeYear(y) + DaysBeforeMonth(y, m) + d - 1
  }

  function DayNumberOf(d: Date): int {
    DayNumber(d.year, d.month, d.day)
  }

  /** `new Date(y, m, d)` at midnight, as a day number: a month outside 0..11
      carries into the year first (floor division by 12), then the day is
      added. */
  function MakeDay(y: int, m: int, d: int): (n: int)
    ensures 0 <= m < 12 ==> n == DayNumber(y, m, d)
    ensures n == DayNumber(y + m / 12, m % 12, 1) + d - 1
  {
    DayNumber(y + m / 12, m % 12, d)
  }

  /** The day number of 1 January 1970, the origin of `Date` time values. */
  const EpochDayNumber: int := DaysBeforeYear(1970)

  /** `Date.getDay` (0 = Sunday) of the day with day number `n`: 1 January
      1970 was a Thursday, hence the offset 4. */
  function WeekdayOf(n: int): (w: int)
    ensures 0 <= w < 7
  {
    (n - EpochDayNumber + 4) % 7
  }

  /** Lexicographic order on (year, month, day): the order of calendar dates. */
  predicate Before(a: Date, b: Date) {
    a.year < b.year
    || (a.year == b.year && a.month < b.month)
    || (a.year == b.year && a.month == b.month && a.day < b.day)
  }

  // ---------------------------------------------------------------------
  // Year lengths and day numbers
  // ---------------------------------------------------------------------

  /** Floor division by `k` steps up by one exactly at multiples of `k`. */
  lemma FloorDivStep(x: int, k: int)
    requires k == 4 || k == 100 || k == 400
    ensures x / k - (x - 1) / k == if x % k == 0 then 1 else 0
  {
    var q, r := (x - 1) / k, (x - 1) % k;
    assert x - 1 == k * q + r && 0 <= r < k;
    if r + 1 < k {
      assert x == k * q + (r + 1);
    } else {
      assert x == k * (q + 1);
    }
  }

  /** Divisibility by 400 implies divisibility by 100, which implies
      divisibility by 4. */
  lemma DivisibilityChain(y: int)
    ensures y % 400 == 0 ==> y % 100 == 0
    ensures y % 100 == 0 ==> y % 4 == 0
  {
    if y % 400 == 0 {
      var k := 4 * (y / 400) - y / 100;
      assert y % 100 == 100 * k;
      assert k == 0;
    }
    if y % 100 == 0 {
      var k := 25 * (y / 100) - y / 4;
      assert y % 4 == 4 * k;
      assert k == 0;
    }
  }

  /** A year contributes exactly its length to the day count. */
  lemma DaysBeforeNextYear(y: int)
    ensures DaysBeforeYear(y + 1) == DaysBeforeYear(y) + YearLength(y)
  {
  }

  /** Shifting by a multiple of the divisor keeps divisibility. */
  lemma ShiftedDivisibility(y: int)
    ensures (y - 1968) % 4 == 0 <==> y % 4 == 0
    ensures (y - 1900) % 100 == 0 <==> y % 100 == 0
    ensures (y - 1600) % 400 == 0 <==> y % 400 == 0
  {
    assert y - 1968 == 4 * (y / 4 - 492) + y % 4;
    assert y - 1900 == 100 * (y / 100 - 19) + y % 100;
    assert y - 1600 == 400 * (y / 400 - 4) + y % 400;
  }

  /** The closed form also grows by exactly the year's length. */
  lemma {:induction false} DayFromYearStep(y: int)
    ensures DayFromYear(y + 1) == DayFromYear(y) + YearLength(y)
  {
    FloorDivStep(y - 1968, 4);
    FloorDivStep(y - 1900, 100);
    FloorDivStep(y - 1600, 400);
    ShiftedDivisibility(y);
    DivisibilityChain(y);
    var d4 := (y - 1968) / 4 - (y - 1969) / 4;
    var d100 := (y - 1900) / 100 - (y - 1901) / 100;
    var d400 := (y - 1600) / 400 - (y - 1601) / 400;
    assert DayFromYear(y + 1) - DayFromYear(y) == 365 + d4 - d100 + d400;
  }

  /** The summed year lengths and the closed form agree on every year. */
  lemma {:induction false} DayFromYearIsDaysBeforeYear(y: int)
    ensures DayFromYear(y) == DaysBeforeYear(y) - DaysBeforeYear(1970)
    decreases if y >= 1970 then y - 1970 else 1970 - y
  {
    if y > 1970 {
      DayFromYearIsDaysBeforeYear(y - 1);
      DayFromYearStep(y - 1);
      DaysBeforeNextYear(y - 1);
    } else if y < 1970 {
      DayFromYearIsDaysBeforeYear(y + 1);
      DayFromYearStep(y);
      DaysBeforeNextYear(y);
    }
  }

  /** Every year before `z` ends no later than `z` starts. */
  lemma {:induction false} DaysBeforeYearMonotone(y: int, z: int)
    requires y < z
    ensures DaysBeforeYear(y) + YearLength(y) <= DaysBeforeYear(z)
    decreases z - y
  {
    DaysBeforeNextYear(y);
    if y + 1 < z {
      DaysBeforeYearMonotone(y + 1, z);
      DaysBeforeNextYear(y + 1);
    }
  }

  /** A month contributes exactly its length to the day count, and the twelve
      months fill the year. */
  lemma DaysBeforeNextMonth(y: int, m: Month)
    ensures DaysBeforeMonth(y, m + 1) == DaysBeforeMonth(y, m) + DaysInMonth(y, m)
    ensures DaysBeforeMonth(y, 12) == YearLength(y)
  {
  }

  /** The first day of the following month comes exactly `DaysInMonth` days
      after the first day of a month, across the December/January boundary too. */
  lemma NextMonthStart(y: int, m: Month)
    ensures MakeDay(y, m + 1, 1) == DayNumber(y, m, 1) + DaysInMonth(y, m)
  {
    DaysBeforeNextMonth(y, m);
    if m == 11 {
      DaysBeforeNextYear(y);
    }
  }

  /** `new Date(y, m + 1, 0)` is the last day of month `m`: the date whose
      `getDate` the calendar reads as the month's length. */
  lemma DayZeroIsLastDay(y: int, m: Month)
    ensures Valid(Date(y, m, DaysInMonth(y, m)))
    ensures MakeDay(y, m + 1, 0) == DayNumberOf(Date(y, m, DaysInMonth(y, m)))
  {
    NextMonthStart(y, m);
  }

  /** A valid date's day number lies within its year. */
  lemma ValidDayNumberInYear(d: Date)
    requires Valid(d)
    ensures DaysBeforeYear(d.year) <= DayNumberOf(d) < DaysBeforeYear(d.year) + YearLength(d.year)
  {
    DaysBeforeNextMonth(d.year, d.month);
    assert DaysBeforeMonth(d.year, d.month + 1) <= DaysBeforeMonth(d.year, 12);
  }

  /** Day numbers order valid dates exactly as the calendar does. */
  lemma {:induction false} DayNumberOrder(a: Date, b: Date)
    requires Valid(a) && Valid(b)
    ensures DayNumberOf(a) < DayNumberOf(b) <==> Before(a, b)
    ensures DayNumberOf(a) == DayNumberOf(b) <==> a == b
  {
    ValidDayNumberInYear(a);
    ValidDayNumberInYear(b);
    if a.year < b.year {
      DaysBeforeYearMonotone(a.year, b.year);
    } else if b.year < a.year {
      DaysBeforeYearMonotone(b.year, a.year);
    } else if a.month < b.month {
      DaysBeforeNextMonth(a.year, a.month);
    } else if b.month < a.month {
      DaysBeforeNextMonth(b.year, b.month);
    }
  }

  /** Within one month, consecutive days have consecutive weekdays, so the
      weekday of day `d` is that of day 1 shifted by `d - 1`. */
  lemma WeekdayShift(n: int, k: int)
    ensures WeekdayOf(n + k) == (WeekdayOf(n) + k) % 7
  {
    var a := n - EpochDayNumber + 4;
    assert a == 7 * (a / 7) + a % 7;
    assert a + k == 7 * (a / 7) + (a % 7 + k);
    ModAddMultiple(a % 7 + k, a / 7);
  }

  lemma ModAddMultiple(x: int, q: int)
    ensures (7 * q + x) % 7 == x % 7
  {
    var r := x % 7;
    assert x == 7 * (x / 7) + r;
    assert 7 * q + x == 7 * (q + x / 7) + r;
  }

  /** The weekday of the first of the next month follows from this month's. */
  lemma NextMonthWeekday(y: int, m: Month)
    ensures WeekdayOf(MakeDay(y, m + 1, 1)) == (WeekdayOf(DayNumber(y, m, 1)) + DaysInMonth(y, m)) % 7
  {
    NextMonthStart(y, m);
    WeekdayShift(DayNumber(y, m, 1), DaysInMonth(y, m));
  }

  /** The weekday of any date, computed as `Date` computes it: from the
      closed-form start of its year, the days before its month and its day. */
  lemma WeekdayFromClosedForm(y: int, m: Month, d: int)
    ensures WeekdayOf(DayNumber(y, m, d)) == (DayFromYear(y) + DaysBeforeMonth(y, m) + d - 1 + 4) % 7
  {
    DayFromYearIsDaysBeforeYear(y);
  }

  /** Anchors of that computation against the real calendar: 1 January 1970
      was a Thursday, 1 January 2000 a Saturday, 29 February 2000 a Tuesday
      and 1 October 2026 is a Thursday. */
  lemma KnownWeekdays()
    ensures (DayFromYear(1970) + DaysBeforeMonth(1970, 0) + 4) % 7 == 4
    ensures (DayFromYear(2000) + DaysBeforeMonth(2000, 0) + 4) % 7 == 6
    ensures (DayFromYear(2000) + DaysBeforeMonth(2000, 1) + 28 + 4) % 7 == 2
    ensures (DayFromYear(2026) + DaysBeforeMonth(2026, 9) + 4) % 7 == 4
  {
  }
}
