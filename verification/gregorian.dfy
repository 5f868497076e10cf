/**
 * The proleptic Gregorian calendar as .NET's DateTime and GregorianCalendar
 * see it: dates from 0001-01-01 to 9999-12-31, instants ordered by their
 * tick count (100-nanosecond units since 0001-01-01 00:00), days of the week
 * numbered from Sunday = 0, and the week-of-year rule FirstFourDayWeek with
 * weeks starting on Monday.
 */
module Gregorian {

  /** The fields of a DateTime, not yet known to name a real instant. */
  datatype DateTimeParts = DateTimeParts(
    Year: int, Month: int, Day: int,
    Hour: int, Minute: int, Second: int,
    SubSecondTicks: int)

  const MinYear := 1
  const MaxYear := 9999
  const TicksPerSecond := 10_000_000
  const TicksPerDay := 864_000_000_000

  /** DayOfWeek numbering: Sunday is 0, Monday is 1. */
  const Sunday := 0
  const Monday := 1

  /** Days a week must have inside a year to be that year's week 1 (FirstFourDayWeek). */
  const FullDaysOfFirstWeek := 4

  predicate IsLeapYear(year: int) {
    year % 4 == 0 && (year % 100 != 0 || year % 400 == 0)
  }

  function DaysInYear(year: int): int {
    if IsLeapYear(year) then 366 else 365
  }

  function DaysInMonth(year: int, month: int): (n: int)
    requires 1 <= month <= 12
    ensures 28 <= n <= 31
    ensures n == 29 <==> month == 2 && IsLeapYear(year)
  {
    if month == 2 then (if IsLeapYear(year) then 29 else 28)
    else if month == 4 || month == 6 || month == 9 || month == 11 then 30
    else 31
  }

  /** Days of the year that lie before the first day of `month`. */
  function DaysBeforeMonth(year: int, month: int): int
    requires 1 <= month <= 12
  {
    var common :=
      if month <= 6 then
        (if month == 1 then 0 else if month == 2 then 31 else if month == 3 then 59
         else if month == 4 then 90 else if month == 5 then 120 else 151)
      else
        (if month == 7 then 181 else if month == 8 then 212 else if month == 9 then 243
         else if month == 10 then 273 else if month == 11 then 304 else 334);
    if month > 2 && IsLeapYear(year) then common + 1 else common
  }

  /** The cumulative table agrees with the month lengths, and the months fill the year exactly. */
  lemma DaysBeforeMonthAccumulates(year: int, month: int)
    requires 1 <= month <= 12
    ensures month < 12 ==> DaysBeforeMonth(year, month + 1) == DaysBeforeMonth(year, month) + DaysInMonth(year, month)
    ensures month == 12 ==> DaysBeforeMonth(year, month) + DaysInMonth(year, month) == DaysInYear(year)
  {
  }

  predicate IsValidDate(year: int, month: int, day: int) {
    MinYear <= year <= MaxYear && 1 <= month <= 12 && 1 <= day <= DaysInMonth(year, month)
  }

  predicate Valid(t: DateTimeParts) {
    && IsValidDate(t.Year, t.Month, t.Day)
    && 0 <= t.Hour < 24 && 0 <= t.Minute < 60 && 0 <= t.Second < 60
    && 0 <= t.SubSecondTicks < TicksPerSecond
  }

  /** A .NET DateTime: an instant between 0001-01-01 00:00 and 9999-12-31 23:59:59.9999999. */
  type DateTime = t: DateTimeParts | Valid(t) witness DateTimeParts(1, 1, 1, 0, 0, 0, 0)

  /** Midnight at the start of a date, as `new DateTime(year, month, day)` builds it. */
  function Midnight(year: int, month: int, day: int): (t: DateTime)
    requires IsValidDate(year, month, day)
    ensures t.Year == year && t.Month == month && t.Day == day
    ensures t.Hour == 0 && t.Minute == 0 && t.Second == 0 && t.SubSecondTicks == 0
  {
    DateTimeParts(year, month, day, 0, 0, 0, 0)
  }

  /** Days from 0001-01-01 to 1 January of `year`. */
  function DaysBeforeYear(year: int): int
    requires year >= 1
  {
    var y := year - 1;
    y * 365 + y / 4 - y / 100 + y / 400
  }

  /** Each year contributes exactly its own length to the day count. */
  lemma DaysBeforeYearStep(year: int)
    requires year >= 1
    ensures DaysBeforeYear(year + 1) == DaysBeforeYear(year) + DaysInYear(year)
  {
    var y := year - 1;
    assert year / 4 == y / 4 + (if year % 4 == 0 then 1 else 0);
    assert year / 100 == y / 100 + (if year % 100 == 0 then 1 else 0);
    assert year / 400 == y / 400 + (if year % 400 == 0 then 1 else 0);
  }

  /** Every date of an earlier year comes before 1 January of a later year. */
  lemma {:induction false} DaysBeforeYearGrows(year: int, later: int)
    requires 1 <= year < later
    ensures DaysBeforeYear(year) + DaysInYear(year) <= DaysBeforeYear(later)
    decreases later - year
  {
    DaysBeforeYearStep(year);
    if year + 1 < later {
      DaysBeforeYearGrows(year + 1, later);
    }
  }

  /** 1-based day of the year. */
  function DayOfYear(t: DateTime): (d: int)
    ensures 1 <= d <= DaysInYear(t.Year)
  {
    DaysBeforeMonthAccumulates(t.Year, t.Month);
    DaysBeforeMonth(t.Year, t.Month) + t.Day
  }

  /** Days from 0001-01-01 to the date of `t`. */
  function DayNumber(t: DateTime): nat {
    DaysBeforeYear(t.Year) + DayOfYear(t) - 1
  }

  /** Ticks since 0001-01-01 00:00: the quantity DateTime comparisons compare. */
  function Ticks(t: DateTime): nat {
    DayNumber(t) * TicksPerDay
      + ((t.Hour * 60 + t.Minute) * 60 + t.Second) * TicksPerSecond
      + t.SubSecondTicks
  }

  function DayOfWeek(t: DateTime): (d: int)
    ensures 0 <= d < 7
  {
    (DayNumber(t) + 1) % 7
  }

  /** Calendar-field order: year, then month, day, hour, minute, second, sub-second ticks. */
  predicate FieldsBefore(t: DateTime, u: DateTime) {
    if t.Year != u.Year then t.Year < u.Year
    else if t.Month != u.Month then t.Month < u.Month
    else if t.Day != u.Day then t.Day < u.Day
    else if t.Hour != u.Hour then t.Hour < u.Hour
    else if t.Minute != u.Minute then t.Minute < u.Minute
    else if t.Second != u.Second then t.Second < u.Second
    else t.SubSecondTicks < u.SubSecondTicks
  }

  lemma TimeOfDayBounded(t: DateTime)
    ensures 0 <= ((t.Hour * 60 + t.Minute) * 60 + t.Second) * TicksPerSecond + t.SubSecondTicks < TicksPerDay
  {
    var s := (t.Hour * 60 + t.Minute) * 60 + t.Second;
    assert 0 <= s < 86400;
  }

  lemma SameYearDayOrder(t: DateTime, u: DateTime)
    requires t.Year == u.Year
    ensures (t.Month, t.Day) == (u.Month, u.Day) ==> DayOfYear(t) == DayOfYear(u)
    ensures t.Month < u.Month || (t.Month == u.Month && t.Day < u.Day) ==> DayOfYear(t) < DayOfYear(u)
  {
    if t.Month < u.Month {
      var m := t.Month;
      while m < u.Month - 1
        invariant t.Month <= m < u.Month
        invariant DaysBeforeMonth(t.Year, t.Month) + DaysInMonth(t.Year, t.Month) <= DaysBeforeMonth(t.Year, m + 1)
      {
        DaysBeforeMonthAccumulates(t.Year, m + 1);
        m := m + 1;
      }
      DaysBeforeMonthAccumulates(t.Year, t.Month);
    }
  }

  /**
   * Ordering instants by tick count is the same as ordering them by their
   * calendar fields, so sorting by DateTime sorts chronologically.
   */
  lemma TicksOrderIsFieldOrder(t: DateTime, u: DateTime)
    ensures Ticks(t) < Ticks(u) <==> FieldsBefore(t, u)
    ensures Ticks(t) == Ticks(u) <==> t == u
  {
    TimeOfDayBounded(t);
    TimeOfDayBounded(u);
    if t.Year < u.Year {
      DaysBeforeYearGrows(t.Year, u.Year);
      assert DayNumber(t) < DayNumber(u);
    } else if u.Year < t.Year {
      DaysBeforeYearGrows(u.Year, t.Year);
      assert DayNumber(u) < DayNumber(t);
    } else {
      SameYearDayOrder(t, u);
      SameYearDayOrder(u, t);
    }
  }

  /** Day of the week of 1 January of `year` (see DayOfWeekFromJan1). */
  function Jan1DayOfWeek(year: int): (d: int)
    requires MinYear <= year <= MaxYear
    ensures 0 <= d < 7
  {
    (DaysBeforeYear(year) + 1) % 7
  }

  /**
   * Offset, in days from 1 January, of the Monday on which week 1 begins,
   * given the day of the week of 1 January: the first Monday-started week
   * with at least four days in the year. Negative when week 1 begins in the
   * last days of the previous year.
   */
  function FirstWeekOffset(jan1: int): (o: int)
    requires 0 <= jan1 < 7
    ensures -3 <= o <= 3
    ensures (jan1 + o + 7) % 7 == Monday
  {
    var offset := (Monday - jan1 + 14) % 7;
    if offset != 0 && offset >= FullDaysOfFirstWeek then offset - 7 else offset
  }

  function FirstWeekStart(year: int): (o: int)
    requires MinYear <= year <= MaxYear
    ensures -3 <= o <= 3
  {
    FirstWeekOffset(Jan1DayOfWeek(year))
  }

  /**
   * Calendar.GetWeekOfYear(t, CalendarWeekRule.FirstFourDayWeek, DayOfWeek.Monday)
   * on the Gregorian calendar. A day before week 1 of its year takes the week
   * number of 31 December of the previous year (see BeforeWeekOneIsPreviousYear);
   * a day at the end of December is never moved into week 1 of the next year.
   */
  function WeekOfYear(t: DateTime): (w: int)
    ensures 1 <= w <= 53
  {
    var day := DayOfYear(t) - 1 - FirstWeekStart(t.Year);
    if day >= 0 then
      WeekIndexBounded(day);
      day / 7 + 1
    else
      YearOneBeginsWeekOne();
      var last := DaysInYear(t.Year - 1) - 1 - FirstWeekStart(t.Year - 1);
      WeekIndexBounded(last);
      last / 7 + 1
  }

  /**
   * The days before week 1 of a year share the week number of 31 December of
   * the year before, and that day always lies in its own year's weeks.
   */
  lemma BeforeWeekOneIsPreviousYear(t: DateTime)
    requires DayOfYear(t) - 1 < FirstWeekStart(t.Year)
    ensures t.Year > MinYear
    ensures var dec31 := DateTimeParts(t.Year - 1, 12, 31, t.Hour, t.Minute, t.Second, t.SubSecondTicks);
      && DayOfYear(dec31) - 1 >= FirstWeekStart(dec31.Year)
      && WeekOfYear(t) == WeekOfYear(dec31)
  {
    YearOneBeginsWeekOne();
    var dec31: DateTime := DateTimeParts(t.Year - 1, 12, 31, t.Hour, t.Minute, t.Second, t.SubSecondTicks);
    DaysBeforeMonthAccumulates(dec31.Year, 12);
    assert DayOfYear(dec31) == DaysInYear(t.Year - 1);
  }

  /** 0001-01-01 is a Monday, so week 1 of year 1 begins on 1 January. */
  lemma YearOneBeginsWeekOne()
    ensures FirstWeekStart(MinYear) == 0
  {
    assert DaysBeforeYear(MinYear) == 0;
  }

  lemma WeekIndexBounded(day: int)
    requires 0 <= day <= 368
    ensures 1 <= day / 7 + 1 <= 53
  {
  }

  /** Adding whole weeks does not change the day of the week. */
  lemma ModSum(n: int, k: int)
    ensures (n + k) % 7 == (n % 7 + k) % 7
  {
    var q := n / 7;
    assert n + k == 7 * q + (n % 7 + k);
  }

  /**
   * Jan1DayOfWeek is the day of the week of 1 January, and the day of the
   * week advances by one with each day of the year.
   */
  lemma DayOfWeekFromJan1(t: DateTime)
    ensures t.Month == 1 && t.Day == 1 ==> DayOfWeek(t) == Jan1DayOfWeek(t.Year)
    ensures DayOfWeek(t) == (Jan1DayOfWeek(t.Year) + DayOfYear(t) - 1) % 7
  {
    var n := DaysBeforeYear(t.Year) + 1;
    assert DayNumber(t) + 1 == n + (DayOfYear(t) - 1);
    ModSum(n, DayOfYear(t) - 1);
  }

  /** 4 January always lies in week 1: the defining property of FirstFourDayWeek. */
  lemma FourthOfJanuaryInWeekOne(t: DateTime)
    requires t.Month == 1 && t.Day == 4
    ensures WeekOfYear(t) == 1
  {
    assert DayOfYear(t) == 4;
  }

  /** Dates in December keep their own year's numbering: never week 1. */
  lemma DecemberIsLateInTheYear(t: DateTime)
    requires t.Month == 12
    ensures WeekOfYear(t) >= 48
    ensures t.Day >= 29 ==> WeekOfYear(t) >= 52
  {
    assert DayOfYear(t) >= 334 + t.Day;
  }

  /** The arithmetic behind WeekAdvancesOnMonday. */
  lemma NextDayArithmetic(jan1: int, start: int, dt: int)
    requires 0 <= jan1 < 7 && (jan1 + start + 7) % 7 == Monday && dt >= 0
    ensures (dt + 1) / 7 == dt / 7 + (if (jan1 + start + dt + 1) % 7 == Monday then 1 else 0)
  {
    var q := (jan1 + start + 7) / 7;
    assert jan1 + start + dt + 1 == 7 * (q - 1) + (Monday + dt + 1);
    ModSum(7 * (q - 1), Monday + dt + 1);
    ModSum(7 * (dt / 7), dt % 7 + 2);
    assert dt + 2 == 7 * (dt / 7) + dt % 7 + 2;
  }

  /**
   * Weeks start on Monday: from one day to the next within a year (once
   * week 1 has begun) the week number goes up by one exactly when the later
   * day is a Monday, and otherwise stays the same.
   */
  lemma WeekAdvancesOnMonday(t: DateTime, u: DateTime)
    requires t.Year == u.Year && DayOfYear(u) == DayOfYear(t) + 1
    requires DayOfYear(t) - 1 >= FirstWeekStart(t.Year)
    ensures WeekOfYear(u) == WeekOfYear(t) + (if DayOfWeek(u) == Monday then 1 else 0)
  {
    var jan1 := Jan1DayOfWeek(t.Year);
    var start := FirstWeekStart(t.Year);
    var dt := DayOfYear(t) - 1 - start;
    DayOfWeekFromJan1(u);
    assert DayOfWeek(u) == (jan1 + start + dt + 1) % 7;
    NextDayArithmetic(jan1, start, dt);
  }
}
