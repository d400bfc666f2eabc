/**
 * The proleptic Gregorian calendar as Python's datetime module counts it:
 * which (year, month, day) triples datetime() accepts, and the day ordinal
 * that date subtraction is based on. A snapshot's day offset is its date's
 * ordinal minus the ordinal of the fixed epoch 2020-01-22.
 */
module Calendar {

  /** datetime.MINYEAR and datetime.MAXYEAR. */
  const MinYear := 1
  const MaxYear := 9999

  datatype Date = Date(year: int, month: int, day: int)

  /** The epoch every snapshot's day offset is measured from. */
  const Epoch := Date(2020, 1, 22)

  predicate IsLeapYear(y: int) {
    y % 4 == 0 && (y % 100 != 0 || y % 400 == 0)
  }

  function DaysInMonth(y: int, m: int): (n: int)
    requires 1 <= m <= 12
    ensures 28 <= n <= 31
  {
    if m == 2 then (if IsLeapYear(y) then 29 else 28)
    else if m == 4 || m == 6 || m == 9 || m == 11 then 30
    else 31
  }

  function DaysInYear(y: int): int {
    if IsLeapYear(y) then 366 else 365
  }

  /** The triples datetime(year, month, day) accepts without a ValueError. */
  predicate IsValid(d: Date) {
    MinYear <= d.year <= MaxYear && 1 <= d.month <= 12 && 1 <= d.day <= DaysInMonth(d.year, d.month)
  }

  /** Days in the years before year y, counted from 0001-01-01. */
  function DaysBeforeYear(y: int): int
    requires y >= 1
  {
    var p := y - 1;
    p * 365 + p / 4 - p / 100 + p / 400
  }

  /** Days in the months of year y before month m. */
  function DaysBeforeMonth(y: int, m: int): int
    requires 1 <= m <= 12
  {
    [0, 31, 59, 90, 120, 151, 181, 212, 243, 273, 304, 334][m - 1]
      + (if m > 2 && IsLeapYear(y) then 1 else 0)
  }

  /** date.toordinal(): 0001-01-01 is day 1. */
  function Ordinal(d: Date): int
    requires IsValid(d)
  {
    DaysBeforeYear(d.year) + DaysBeforeMonth(d.year, d.month) + d.day
  }

  /** (date - Epoch).days: negative for dates before the epoch. */
  function DaysSinceEpoch(d: Date): int
    requires IsValid(d)
  {
    Ordinal(d) - Ordinal(Epoch)
  }

  /** The calendar date that follows d, built by hand from month lengths. */
  function NextDay(d: Date): Date
    requires IsValid(d)
  {
    if d.day < DaysInMonth(d.year, d.month) then Date(d.year, d.month, d.day + 1)
    else if d.month < 12 then Date(d.year, d.month + 1, 1)
    else Date(d.year + 1, 1, 1)
  }

  /** Strict chronological order: by year, then month, then day. */
  predicate Before(a: Date, b: Date) {
    a.year < b.year
    || (a.year == b.year && a.month < b.month)
    || (a.year == b.year && a.month == b.month && a.day < b.day)
  }

  lemma MonthStep(y: int, m: int)
    requires 1 <= m < 12
    ensures DaysBeforeMonth(y, m + 1) == DaysBeforeMonth(y, m) + DaysInMonth(y, m)
  {
  }

  lemma YearEnd(y: int)
    ensures DaysBeforeMonth(y, 12) + DaysInMonth(y, 12) == DaysInYear(y)
  {
  }

  /** Each year contributes its own length to the day count, leap years 366 days. */
  lemma YearStep(y: int)
    requires y >= 1
    ensures DaysBeforeYear(y + 1) == DaysBeforeYear(y) + DaysInYear(y)
  {
    LeapCountsStep(y);
  }

  /**
   * From the years before y - 1 to the years before y, the plain day count grows
   * by 365, and the counts of multiples of 4, 100 and 400 each grow by one
   * exactly when y is such a multiple.
   */
  lemma LeapCountsStep(y: int)
    ensures y * 365 == (y - 1) * 365 + 365
    ensures y / 4 == (y - 1) / 4 + (if y % 4 == 0 then 1 else 0)
    ensures y / 100 == (y - 1) / 100 + (if y % 100 == 0 then 1 else 0)
    ensures y / 400 == (y - 1) / 400 + (if y % 400 == 0 then 1 else 0)
  {
  }

  /** The ordinal counts days: the next calendar day is exactly one day later. */
  lemma NextDayOrdinal(d: Date)
    requires IsValid(d) && IsValid(NextDay(d))
    ensures Ordinal(NextDay(d)) == Ordinal(d) + 1
  {
    if d.day == DaysInMonth(d.year, d.month) {
      if d.month < 12 {
        MonthStep(d.year, d.month);
      } else {
        YearEnd(d.year);
        YearStep(d.year);
      }
    }
  }

  /** The day ordinal of 0001-01-01 is 1. */
  lemma FirstOrdinal()
    ensures Ordinal(Date(MinYear, 1, 1)) == 1
  {
  }

  lemma {:induction false} MonthsIncrease(y: int, m1: int, m2: int)
    requires 1 <= m1 < m2 <= 12
    ensures DaysBeforeMonth(y, m1) + DaysInMonth(y, m1) <= DaysBeforeMonth(y, m2)
    decreases m2 - m1
  {
    MonthStep(y, m1);
    if m1 + 1 < m2 {
      MonthsIncrease(y, m1 + 1, m2);
    }
  }

  lemma {:induction false} YearsIncrease(y1: int, y2: int)
    requires 1 <= y1 < y2
    ensures DaysBeforeYear(y1) + DaysInYear(y1) <= DaysBeforeYear(y2)
    decreases y2 - y1
  {
    YearStep(y1);
    if y1 + 1 < y2 {
      YearsIncrease(y1 + 1, y2);
    }
  }

  /** A valid date's position within its year lies between 1 and the year's length. */
  lemma DayOfYearBounds(d: Date)
    requires IsValid(d)
    ensures 1 <= DaysBeforeMonth(d.year, d.month) + d.day <= DaysInYear(d.year)
  {
    YearEnd(d.year);
    if d.month < 12 {
      MonthsIncrease(d.year, d.month, 12);
    }
  }

  /** A chronologically earlier date has a smaller ordinal. */
  lemma OrdinalIncreasing(a: Date, b: Date)
    requires IsValid(a) && IsValid(b) && Before(a, b)
    ensures Ordinal(a) < Ordinal(b)
  {
    if a.year < b.year {
      DayOfYearBounds(a);
      DayOfYearBounds(b);
      YearsIncrease(a.year, b.year);
    } else if a.month < b.month {
      MonthsIncrease(a.year, a.month, b.month);
    }
  }

  /**
   * Day offsets order dates exactly as the calendar does: an earlier date has
   * a smaller offset, a later one a larger, and equal offsets mean the same date.
   */
  lemma OffsetOrder(a: Date, b: Date)
    requires IsValid(a) && IsValid(b)
    ensures Before(a, b) <==> DaysSinceEpoch(a) < DaysSinceEpoch(b)
    ensures a == b <==> DaysSinceEpoch(a) == DaysSinceEpoch(b)
  {
    if Before(a, b) {
      OrdinalIncreasing(a, b);
    } else if Before(b, a) {
      OrdinalIncreasing(b, a);
    }
  }

  /** Dates before 2020-01-22 have negative offsets, later ones positive. */
  lemma OffsetSign(d: Date)
    requires IsValid(d)
    ensures DaysSinceEpoch(d) < 0 <==> Before(d, Epoch)
    ensures DaysSinceEpoch(d) == 0 <==> d == Epoch
  {
    OffsetOrder(d, Epoch);
  }

  /** 2020-03-05 is 43 days after the epoch (2020 is a leap year). */
  lemma MarchFifthOffset()
    ensures DaysSinceEpoch(Date(2020, 3, 5)) == 43
  {
  }
}
