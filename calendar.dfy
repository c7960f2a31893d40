/** The part of JavaScript's `Date` that the liturgical calendar uses:
    UTC calendar days in the proleptic Gregorian calendar, `Date.UTC`
    (including its mapping of the years 0..99 to 1900..1999),
    `getUTCDay`, and day arithmetic with `setUTCDate`. Every time value the
    calendar compares is a UTC midnight, so a day is identified by its day
    number, the count of days since 1970-01-01, and comparing time values
    is comparing day numbers. */
module Calendar {

  /** A UTC calendar day; `month0` counts from 0 as `getUTCMonth` does. */
  datatype Date = Date(year: int, month0: int, day: int)

  predicate IsLeap(y: int) {
    y % 4 == 0 && (y % 100 != 0 || y % 400 == 0)
  }

  function MonthLength(y: int, m0: int): int
    requires 0 <= m0 < 12
  {
    if m0 == 1 then (if IsLeap(y) then 29 else 28)
    else if m0 == 3 || m0 == 5 || m0 == 8 || m0 == 10 then 30
    else 31
  }

  /** A day that exists. */
  predicate Valid(d: Date) {
    0 <= d.month0 < 12 && 1 <= d.day <= MonthLength(d.year, d.month0)
  }

  function YearLength(y: int): int {
    if IsLeap(y) then 366 else 365
  }

  /** The number of leap years in `[0, y)` (for negative `y`, minus the
      number in `[y, 0)`). */
  function LeapsBefore(y: int): int {
    (y + 3) / 4 - (y + 99) / 100 + (y + 399) / 400
  }

  /** Days from 0000-01-01 to the first day of year `y`. */
  function DaysBeforeYear(y: int): int {
    365 * y + LeapsBefore(y)
  }

  /** Days from the first day of year `y` to the first day of month `m0`. */
  function DaysBeforeMonth(y: int, m0: int): int
    requires 0 <= m0 < 12
  {
    [0, 31, 59, 90, 120, 151, 181, 212, 243, 273, 304, 334][m0]
      + (if m0 >= 2 && IsLeap(y) then 1 else 0)
  }

  /** Days from 0000-01-01 to 1970-01-01, the epoch of JavaScript time values. */
  const EpochDays := 719528

  /** The day number of `d`: days since 1970-01-01 (`time value / 86400000`). */
  function DayNumber(d: Date): int
    requires 0 <= d.month0 < 12
  {
    DaysBeforeYear(d.year) + DaysBeforeMonth(d.year, d.month0) + d.day - 1 - EpochDays
  }

  /** `getUTCDay()`: 0 is Sunday; 1970-01-01 was a Thursday. */
  function Weekday(d: Date): int
    requires 0 <= d.month0 < 12
  {
    (DayNumber(d) + 4) % 7
  }

  /** The epoch has day number 0 and was a Thursday. */
  lemma EpochDay()
    ensures DayNumber(Date(1970, 0, 1)) == 0 && Weekday(Date(1970, 0, 1)) == 4
  {
  }

  function NextDay(d: Date): Date
    requires Valid(d)
  {
    if d.day < MonthLength(d.year, d.month0) then d.(day := d.day + 1)
    else if d.month0 < 11 then Date(d.year, d.month0 + 1, 1)
    else Date(d.year + 1, 0, 1)
  }

  function PrevDay(d: Date): Date
    requires Valid(d)
  {
    if d.day > 1 then d.(day := d.day - 1)
    else if d.month0 > 0 then Date(d.year, d.month0 - 1, MonthLength(d.year, d.month0 - 1))
    else Date(d.year - 1, 11, 31)
  }

  /** `x.setUTCDate(x.getUTCDate() + n)`: the day `n` days after `d`
      (before it when `n` is negative), one day at a time. */
  function AddDays(d: Date, n: int): (r: Date)
    requires Valid(d)
    ensures Valid(r)
    decreases if n < 0 then -n else n
  {
    if n == 0 then d
    else if n > 0 then
      NextDayNumber(d);
      AddDays(NextDay(d), n - 1)
    else
      PrevDayNumber(d);
      AddDays(PrevDay(d), n + 1)
  }

  /** `Date.UTC` reads a year in 0..99 as 1900..1999. */
  function FullYear(y: int): int {
    if 0 <= y <= 99 then 1900 + y else y
  }

  /** `Date.UTC(y, m0, d)`: the first day of the month, moved on by `d - 1`
      days, so a day number beyond the month's end carries over. */
  function DateUtc(y: int, m0: int, d: int): (r: Date)
    requires 0 <= m0 < 12
    ensures Valid(r)
  {
    AddDays(Date(FullYear(y), m0, 1), d - 1)
  }

  // ---------------------------------------------------------------------------
  // Day numbers

  lemma LeapStep(y: int)
    ensures LeapsBefore(y + 1) == LeapsBefore(y) + (if IsLeap(y) then 1 else 0)
  {
    StepOver4(y);
    StepOver100(y);
    StepOver400(y);
    MultiplesNest(y);
  }

  /** A multiple of 400 is one of 100, and a multiple of 100 one of 4. */
  lemma MultiplesNest(y: int)
    ensures y % 400 == 0 ==> y % 100 == 0
    ensures y % 100 == 0 ==> y % 4 == 0
  {
    if y % 400 == 0 {
      MultipleOf100(4 * (y / 400));
    }
    if y % 100 == 0 {
      MultipleOf4(25 * (y / 100));
    }
  }

  lemma MultipleOf100(k: int)
    ensures (100 * k) % 100 == 0
  {
  }

  lemma MultipleOf4(k: int)
    ensures (4 * k) % 4 == 0
  {
  }

  /** Each count of multiples in `LeapsBefore` grows by one exactly at a multiple. */
  lemma StepOver4(y: int)
    ensures (y + 4) / 4 == (y + 3) / 4 + (if y % 4 == 0 then 1 else 0)
  {
  }

  lemma StepOver100(y: int)
    ensures (y + 100) / 100 == (y + 99) / 100 + (if y % 100 == 0 then 1 else 0)
  {
  }

  lemma StepOver400(y: int)
    ensures (y + 400) / 400 == (y + 399) / 400 + (if y % 400 == 0 then 1 else 0)
  {
  }

  /** A year has as many days as its length. */
  lemma YearStep(y: int)
    ensures DaysBeforeYear(y + 1) == DaysBeforeYear(y) + YearLength(y)
  {
    LeapStep(y);
  }

  /** The days of a month follow the days before it, and December ends the year. */
  lemma MonthStep(y: int, m0: int)
    requires 0 <= m0 < 12
    ensures m0 < 11 ==> DaysBeforeMonth(y, m0 + 1) == DaysBeforeMonth(y, m0) + MonthLength(y, m0)
    ensures m0 == 11 ==> DaysBeforeMonth(y, m0) + MonthLength(y, m0) == YearLength(y)
  {
  }

  /** The next day has the next day number. */
  lemma NextDayNumber(d: Date)
    requires Valid(d)
    ensures Valid(NextDay(d)) && DayNumber(NextDay(d)) == DayNumber(d) + 1
  {
    MonthStep(d.year, d.month0);
    if d.day == MonthLength(d.year, d.month0) && d.month0 == 11 {
      YearStep(d.year);
    }
  }

  /** The previous day has the previous day number. */
  lemma PrevDayNumber(d: Date)
    requires Valid(d)
    ensures Valid(PrevDay(d)) && DayNumber(PrevDay(d)) == DayNumber(d) - 1
  {
    if d.day == 1 && d.month0 > 0 {
      MonthStep(d.year, d.month0 - 1);
    } else if d.day == 1 {
      YearStep(d.year - 1);
      MonthStep(d.year - 1, 11);
    }
  }

  /** Adding `n` days adds `n` to the day number. */
  lemma {:induction false} AddDaysNumber(d: Date, n: int)
    requires Valid(d)
    ensures DayNumber(AddDays(d, n)) == DayNumber(d) + n
    decreases if n < 0 then -n else n
  {
    if n > 0 {
      NextDayNumber(d);
      AddDaysNumber(NextDay(d), n - 1);
    } else if n < 0 {
      PrevDayNumber(d);
      AddDaysNumber(PrevDay(d), n + 1);
    }
  }

  /** Adding days within a month only moves the day of the month. */
  lemma {:induction false} AddDaysInMonth(d: Date, n: nat)
    requires Valid(d) && d.day + n <= MonthLength(d.year, d.month0)
    ensures AddDays(d, n) == d.(day := d.day + n)
    decreases n
  {
    if n > 0 {
      AddDaysInMonth(NextDay(d), n - 1);
    }
  }

  /** For a day that exists, `Date.UTC` gives that day (in the full year). */
  lemma DateUtcOfValid(y: int, m0: int, d: int)
    requires Valid(Date(FullYear(y), m0, d))
    ensures DateUtc(y, m0, d) == Date(FullYear(y), m0, d)
  {
    AddDaysInMonth(Date(FullYear(y), m0, 1), d - 1);
  }

  /** Years are ordered by their first days, a whole year apart at least. */
  lemma {:induction false} DaysBeforeYearGrows(a: int, b: int)
    requires a < b
    ensures DaysBeforeYear(b) >= DaysBeforeYear(a) + YearLength(a)
    decreases b - a
  {
    YearStep(a);
    if a + 1 < b {
      DaysBeforeYearGrows(a + 1, b);
    }
  }

  /** The day of the year of a day that exists lies within its year. */
  lemma DayOfYearBounds(d: Date)
    requires Valid(d)
    ensures 0 <= DaysBeforeMonth(d.year, d.month0) + d.day - 1 < YearLength(d.year)
  {
    var y, m := d.year, d.month0;
    assert DaysBeforeMonth(y, m) + MonthLength(y, m) <= YearLength(y);
  }

  /** Day numbers order days that exist by year first. */
  lemma EarlierYear(a: Date, b: Date)
    requires Valid(a) && Valid(b) && a.year < b.year
    ensures DayNumber(a) < DayNumber(b)
  {
    DayOfYearBounds(a);
    DayOfYearBounds(b);
    DaysBeforeYearGrows(a.year, b.year);
  }

  /** A day that lies between the first days of year `y` and of year `y + 1`
      belongs to year `y`. */
  lemma YearOfDayNumber(d: Date, y: int)
    requires Valid(d)
    requires DayNumber(Date(y, 0, 1)) <= DayNumber(d) < DayNumber(Date(y + 1, 0, 1))
    ensures d.year == y
  {
    if d.year < y {
      EarlierYear(d, Date(y, 0, 1));
    } else if d.year > y {
      if d.year > y + 1 {
        EarlierYear(Date(y + 1, 0, 1), d);
      } else {
        DayOfYearBounds(d);
      }
    }
  }

  /** The weekday advances with the day number. */
  lemma AddDaysWeekday(d: Date, n: int)
    requires Valid(d)
    ensures Weekday(AddDays(d, n)) == (Weekday(d) + n) % 7
  {
    AddDaysNumber(d, n);
    ModSevenShift(DayNumber(d) + 4, n);
  }

  lemma ModSevenShift(x: int, n: int)
    ensures (x + n) % 7 == (x % 7 + n) % 7
  {
    var q := x / 7;
    assert x == 7 * q + x % 7;
    assert x + n == 7 * q + (x % 7 + n);
  }

  // ---------------------------------------------------------------------------
  // Sundays

  /** `previousSunday`: `d` itself when it is a Sunday, else the Sunday before. */
  function PreviousSunday(d: Date): Date
    requires Valid(d)
  {
    AddDays(d, -Weekday(d))
  }

  /** `nextSunday`: the first Sunday strictly after `d`. */
  function NextSunday(d: Date): Date
    requires Valid(d)
  {
    AddDays(d, 7 - Weekday(d))
  }

  /** `previousSunday` gives a Sunday at most six days back, and a Sunday unchanged. */
  lemma PreviousSundayIsSunday(d: Date)
    requires Valid(d)
    ensures var r := PreviousSunday(d);
      && Weekday(r) == 0
      && DayNumber(d) - 6 <= DayNumber(r) <= DayNumber(d)
      && (Weekday(d) == 0 <==> r == d)
  {
    var w := Weekday(d);
    AddDaysNumber(d, -w);
    AddDaysWeekday(d, -w);
    assert (w + -w) % 7 == 0;
  }

  /** Whole weeks before a Sunday is a Sunday, its own previous Sunday. */
  lemma WeeksBeforeSunday(d: Date, k: nat)
    requires Valid(d) && Weekday(d) == 0
    ensures PreviousSunday(AddDays(d, -7 * k)) == AddDays(d, -7 * k)
  {
    var r := AddDays(d, -7 * k);
    AddDaysWeekday(d, -7 * k);
    assert (-7 * k) % 7 == 0;
    PreviousSundayIsSunday(r);
  }

  /** `nextSunday` gives a Sunday one to seven days later, never `d` itself. */
  lemma NextSundayIsSunday(d: Date)
    requires Valid(d)
    ensures var r := NextSunday(d);
      && Weekday(r) == 0
      && DayNumber(d) + 1 <= DayNumber(r) <= DayNumber(d) + 7
      && (Weekday(d) == 0 <==> DayNumber(r) == DayNumber(d) + 7)
  {
    var w := Weekday(d);
    AddDaysNumber(d, 7 - w);
    AddDaysWeekday(d, 7 - w);
    assert (w + (7 - w)) % 7 == 0;
  }
}
