/**
 * Week numbers under FirstFourDayWeek/Monday at the turn of the year, where
 * they differ from ISO 8601: the last days of December keep week 53 of their
 * own year, and the first days of January before week 1 take the number of
 * 31 December.
 */
module GregorianExamples {
  import opened Gregorian

  /** Monday 2019-12-30 is in week 53 of 2019 (ISO 8601 puts it in week 1 of 2020). */
  lemma EndOf2019IsWeek53()
    ensures WeekOfYear(DateTimeParts(2019, 12, 30, 0, 0, 0, 0)) == 53
  {
    assert DaysBeforeYear(2019) == 737059;
    assert DayOfYear(DateTimeParts(2019, 12, 30, 0, 0, 0, 0)) == 364;
  }

  /** 1 January 2018 is a Monday, so Monday 2018-12-31 is the 365th day and the last of week 53 of 2018. */
  lemma EndOf2018IsWeek53()
    ensures WeekOfYear(DateTimeParts(2018, 12, 31, 0, 0, 0, 0)) == 53
  {
    assert DaysBeforeYear(2018) == 736694;
    assert DayOfYear(DateTimeParts(2018, 12, 31, 0, 0, 0, 0)) == 365;
  }

  /** Friday 2021-01-01 lies before week 1 of 2021 and takes the number of 2020-12-31: week 53. */
  lemma StartOf2021IsWeek53()
    ensures WeekOfYear(DateTimeParts(2021, 1, 1, 0, 0, 0, 0)) == 53
  {
    assert DaysBeforeYear(2021) == 737790;
    assert FirstWeekStart(2021) == 3;
    assert DaysBeforeYear(2020) == 737424;
    assert FirstWeekStart(2020) == -2;
    assert DayOfYear(DateTimeParts(2020, 12, 31, 0, 0, 0, 0)) == 366;
  }
}
