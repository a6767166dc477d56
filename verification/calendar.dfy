/**
 * The proleptic Gregorian calendar as chrono uses it: civil dates, the
 * number of days between a date and 1970-01-01, and the UTC date of a
 * Unix timestamp (`NaiveDateTime::from_timestamp(dt, 0).date()`).
 * Days are counted from 1970-01-01; day 0 is that date.
 */
module Calendar {

  datatype Date = Date(year: int, month: int, day: int)

  /** The years chrono can represent (`i32::MIN >> 13` and `i32::MAX >> 13`). */
  const MinYear: int := -262144
  const MaxYear: int := 262143

  const SecondsPerDay: int := 86400

  predicate IsLeapYear(y: int) {
    y % 4 == 0 && (y % 100 != 0 || y % 400 == 0)
  }

  function DaysInYear(y: int): int {
    if IsLeapYear(y) then 366 else 365
  }

  function DaysInMonth(y: int, m: int): int
    requires 1 <= m <= 12
  {
    if m == 2 then (if IsLeapYear(y) then 29 else 28)
    else if m == 4 || m == 6 || m == 9 || m == 11 then 30
    else 31
  }

  /** A date that exists in the proleptic Gregorian calendar. */
  predicate ValidDate(d: Date) {
    1 <= d.month <= 12 && 1 <= d.day <= DaysInMonth(d.year, d.month)
  }

  /** A date inside chrono's range. */
  predicate Representable(d: Date) {
    MinYear <= d.year <= MaxYear
  }

  /** Leap years among the years 1 .. y-1 (negative when y < 1). */
  function LeapYearsBefore(y: int): int {
    (y - 1) / 4 - (y - 1) / 100 + (y - 1) / 400
  }

  /** Days from 1970-01-01 to January 1 of year `y`. */
  function YearStart(y: int): int {
    365 * (y - 1970) + LeapYearsBefore(y) - LeapYearsBefore(1970)
  }

  /** Days from January 1 of year `y` to the first of month `m`. */
  function DaysBeforeMonth(y: int, m: int): int
    requires 1 <= m <= 12
  {
    [0, 31, 59, 90, 120, 151, 181, 212, 243, 273, 304, 334][m - 1]
      + (if m > 2 && IsLeapYear(y) then 1 else 0)
  }

  /** Days from 1970-01-01 to `d`. */
  function DaysFromCivil(d: Date): int
    requires ValidDate(d)
  {
    YearStart(d.year) + DaysBeforeMonth(d.year, d.month) + d.day - 1
  }

  /** Floor division by `k` steps up by one exactly at the multiples of `k`. */
  lemma DivStep(y: int, k: int)
    requires k == 4 || k == 100 || k == 400
    ensures y / k - (y - 1) / k == if y % k == 0 then 1 else 0
  {
  }

  lemma YearStartStep(y: int)
    ensures YearStart(y + 1) == YearStart(y) + DaysInYear(y)
  {
    DivStep(y, 4);
    DivStep(y, 100);
    DivStep(y, 400);
  }

  lemma MonthStep(y: int, m: int)
    requires 1 <= m <= 12
    ensures m < 12 ==> DaysBeforeMonth(y, m + 1) == DaysBeforeMonth(y, m) + DaysInMonth(y, m)
    ensures m == 12 ==> DaysBeforeMonth(y, m) + DaysInMonth(y, m) == DaysInYear(y)
  {
  }

  /** Years are laid end to end: a later year starts no earlier than an earlier one ends. */
  lemma {:induction false} YearStartMonotone(a: int, b: int)
    requires a < b
    ensures YearStart(a + 1) <= YearStart(b)
    decreases b - a
  {
    if a + 1 < b {
      YearStartMonotone(a, b - 1);
      YearStartStep(b - 1);
    }
  }

  /** Months are laid end to end within a year. */
  lemma {:induction false} MonthStartMonotone(y: int, a: int, b: int)
    requires 1 <= a < b <= 12
    ensures DaysBeforeMonth(y, a) + DaysInMonth(y, a) <= DaysBeforeMonth(y, b)
    decreases b - a
  {
    MonthStep(y, b - 1);
    if a + 1 < b {
      MonthStartMonotone(y, a, b - 1);
    }
  }

  /** Every valid date falls inside its own year. */
  lemma DayOfYearBound(d: Date)
    requires ValidDate(d)
    ensures YearStart(d.year) <= DaysFromCivil(d) < YearStart(d.year) + DaysInYear(d.year)
  {
    MonthStep(d.year, 12);
    if d.month < 12 {
      MonthStartMonotone(d.year, d.month, 12);
    }
  }

  /** The year, at or below `y`, in which day `n` falls or after which it comes. */
  function YearAtOrBelow(n: int, y: int): (r: int)
    ensures r <= y && YearStart(r) <= n
    decreases YearStart(y) - n
  {
    if YearStart(y) <= n then y
    else
      YearStartStep(y - 1);
      YearAtOrBelow(n, y - 1)
  }

  /** Walks forward from a year that starts no later than day `n` to the year containing it. */
  function YearUpTo(n: int, y: int): (r: int)
    requires YearStart(y) <= n
    ensures YearStart(r) <= n < YearStart(r + 1)
    decreases n - YearStart(y)
  {
    YearStartStep(y);
    if n < YearStart(y + 1) then y else YearUpTo(n, y + 1)
  }

  /** The year containing day `n`. */
  function YearOfDay(n: int): (y: int)
    ensures YearStart(y) <= n < YearStart(y + 1)
  {
    YearUpTo(n, YearAtOrBelow(n, 1970))
  }

  /** The month, at or below `m`, containing day-of-year `r` of year `y`. */
  function MonthOfDay(y: int, r: int, m: int): (month: int)
    requires 1 <= m <= 12 && 0 <= r < DaysBeforeMonth(y, m) + DaysInMonth(y, m)
    ensures 1 <= month <= m
    ensures DaysBeforeMonth(y, month) <= r < DaysBeforeMonth(y, month) + DaysInMonth(y, month)
    decreases m
  {
    if DaysBeforeMonth(y, m) <= r then m
    else
      MonthStep(y, m - 1);
      MonthOfDay(y, r, m - 1)
  }

  /** The civil date of day `n`: a valid date that lies exactly `n` days after 1970-01-01. */
  function CivilFromDays(n: int): (d: Date)
    ensures ValidDate(d)
    ensures DaysFromCivil(d) == n
  {
    var y := YearOfDay(n);
    YearStartStep(y);
    MonthStep(y, 12);
    var m := MonthOfDay(y, n - YearStart(y), 12);
    Date(y, m, n - YearStart(y) - DaysBeforeMonth(y, m) + 1)
  }

  /** Distinct valid dates lie a distinct number of days from 1970-01-01. */
  lemma DaysFromCivilInjective(a: Date, b: Date)
    requires ValidDate(a) && ValidDate(b)
    requires DaysFromCivil(a) == DaysFromCivil(b)
    ensures a == b
  {
    DayOfYearBound(a);
    DayOfYearBound(b);
    YearStartStep(a.year);
    YearStartStep(b.year);
    if a.year < b.year {
      YearStartMonotone(a.year, b.year);
    } else if b.year < a.year {
      YearStartMonotone(b.year, a.year);
    }
    assert a.year == b.year;
    if a.month < b.month {
      MonthStartMonotone(a.year, a.month, b.month);
    } else if b.month < a.month {
      MonthStartMonotone(a.year, b.month, a.month);
    }
  }

  /** CivilFromDays inverts DaysFromCivil. */
  lemma CivilFromDaysOfCivil(d: Date)
    requires ValidDate(d)
    ensures CivilFromDays(DaysFromCivil(d)) == d
  {
    DaysFromCivilInjective(CivilFromDays(DaysFromCivil(d)), d);
  }

  /** The UTC calendar date of Unix timestamp `dt`: floor-divide by a day's seconds, then convert. */
  function DateOfTimestamp(dt: int): (d: Date)
    ensures ValidDate(d)
  {
    CivilFromDays(dt / SecondsPerDay)
  }

  /** The first and the last day chrono can represent, counted from 1970-01-01. */
  const MinDay: int := YearStart(MinYear)
  const MaxDay: int := YearStart(MaxYear + 1) - 1

  /** A timestamp chrono can convert without panicking: its day lies in chrono's range. */
  predicate TimestampInRange(dt: int) {
    MinDay <= dt / SecondsPerDay <= MaxDay
  }

  /** Chrono's range runs from day -96465658 (262145 BCE) to day 95026601 (262143-12-31). */
  lemma DayRange()
    ensures MinDay == -96465658 && MaxDay == 95026601
  {
    assert LeapYearsBefore(1970) == 477;
    assert LeapYearsBefore(MinYear) == -63571;
    assert LeapYearsBefore(MaxYear + 1) == 63569;
  }

  /** A day count is in chrono's range exactly when the year of its date is representable. */
  lemma DayInRangeIff(n: int)
    ensures MinDay <= n <= MaxDay <==> Representable(CivilFromDays(n))
  {
    var d := CivilFromDays(n);
    DayOfYearBound(d);
    YearStartStep(d.year);
    if d.year < MinYear {
      YearStartMonotone(d.year, MinYear);
    } else if MinYear < d.year {
      YearStartMonotone(MinYear - 1, d.year);
    }
    if d.year < MaxYear {
      YearStartMonotone(d.year, MaxYear + 1);
    } else if MaxYear < d.year {
      YearStartMonotone(MaxYear, d.year);
    }
  }

  /** A timestamp is in range exactly when its UTC date is representable. */
  lemma TimestampInRangeIff(dt: int)
    ensures TimestampInRange(dt) <==> Representable(DateOfTimestamp(dt))
  {
    DayInRangeIff(dt / SecondsPerDay);
  }

  /**
   * A timestamp is on date `d` exactly when it falls in the 86400 seconds
   * starting at midnight UTC of `d`.
   */
  lemma OnDateIff(dt: int, d: Date)
    requires ValidDate(d)
    ensures DateOfTimestamp(dt) == d <==>
      DaysFromCivil(d) * SecondsPerDay <= dt < DaysFromCivil(d) * SecondsPerDay + SecondsPerDay
  {
    var k := dt / SecondsPerDay;
    assert k == DaysFromCivil(d) <==>
      DaysFromCivil(d) * SecondsPerDay <= dt < DaysFromCivil(d) * SecondsPerDay + SecondsPerDay;
    if DateOfTimestamp(dt) == d {
      assert DaysFromCivil(CivilFromDays(k)) == k;
    }
    if k == DaysFromCivil(d) {
      CivilFromDaysOfCivil(d);
    }
  }

  /** January 1, 2000 lies 10957 days after 1970-01-01. */
  lemma Y2kDays()
    ensures ValidDate(Date(2000, 1, 1)) && DaysFromCivil(Date(2000, 1, 1)) == 10957
    ensures ValidDate(Date(2000, 1, 2)) && DaysFromCivil(Date(2000, 1, 2)) == 10958
  {
    assert LeapYearsBefore(2000) == 484;
    assert LeapYearsBefore(1970) == 477;
    assert YearStart(2000) == 10957;
  }

  /** The two timestamps of the forecaster's tests: 946684800 is 2000-01-01 and 946771200 is 2000-01-02. */
  lemma TestTimestamps(first: int, second: int)
    requires first == 946684800 && second == 946771200
    ensures DateOfTimestamp(first) == Date(2000, 1, 1)
    ensures DateOfTimestamp(second) == Date(2000, 1, 2)
  {
    Y2kDays();
    var d1, d2 := Date(2000, 1, 1), Date(2000, 1, 2);
    assert DaysFromCivil(d1) * SecondsPerDay == first;
    assert DaysFromCivil(d2) * SecondsPerDay == second;
    OnDateIff(first, d1);
    OnDateIff(second, d2);
  }
}
