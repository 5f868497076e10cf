/**
 * The repository contents of the service's unit tests, and the prices the
 * tests expect, proved of the model.
 */
module AnalyticsServiceExamples {
  import opened Wrappers
  import opened Gregorian
  import opened AnalyticsService

  /** Ten hourly rates: CBI over three years, and REL and IBM on one day. */
  function ArrangedRates(): (rates: seq<HourlyShareRate>)
    ensures |rates| == 10
  {
    [
      HourlyShareRate(1, "CBI", 310.0, DateTimeParts(2017, 8, 17, 5, 0, 0, 0)),
      HourlyShareRate(2, "CBI", 320.0, DateTimeParts(2018, 8, 16, 5, 0, 0, 0)),
      HourlyShareRate(3, "REL", 300.0, DateTimeParts(2018, 8, 17, 5, 0, 0, 0)),
      HourlyShareRate(4, "CBI", 300.0, DateTimeParts(2018, 8, 17, 5, 0, 0, 0)),
      HourlyShareRate(5, "CBI", 400.0, DateTimeParts(2018, 8, 17, 6, 0, 0, 0)),
      HourlyShareRate(6, "IBM", 300.0, DateTimeParts(2018, 8, 17, 5, 0, 0, 0)),
      HourlyShareRate(7, "CBI", 999.0, DateTimeParts(2019, 1, 1, 6, 0, 0, 0)),
      HourlyShareRate(8, "CBI", 1999.0, DateTimeParts(2019, 1, 2, 3, 0, 0, 0)),
      HourlyShareRate(9, "CBI", 201.0, DateTimeParts(2019, 1, 20, 1, 0, 0, 0)),
      HourlyShareRate(10, "CBI", 2010.0, DateTimeParts(2019, 1, 30, 2, 0, 0, 0))
    ]
  }

  /**
   * Records `first` and `last` are the earliest and latest matching records,
   * and `high` and `low` match and carry the largest and smallest rates.
   */
  ghost predicate PriceSources(rates: seq<HourlyShareRate>, symbol: string, p: Period, first: int, last: int, high: int, low: int) {
    && IsEarliestMatch(rates, symbol, p, first) && IsLatestMatch(rates, symbol, p, last)
    && 0 <= high < |rates| && 0 <= low < |rates|
    && Matches(rates[high], symbol, p) && Matches(rates[low], symbol, p)
    && (forall j :: 0 <= j < |rates| && Matches(rates[j], symbol, p) ==> rates[low].Rate <= rates[j].Rate <= rates[high].Rate)
  }

  /** The four prices of a result, read off the records that supply them. */
  lemma PriceFromRecords(rates: seq<HourlyShareRate>, symbol: string, p: Period, first: int, last: int, high: int, low: int)
    requires PriceSources(rates, symbol, p, first, last, high, low)
    ensures Aggregate(rates, symbol, p) ==
      Some(AnalyticsPrice(rates[first].Rate, rates[last].Rate, rates[high].Rate, rates[low].Rate))
  {
    OpenIsEarliestMatch(rates, symbol, p, first);
    CloseIsLatestMatch(rates, symbol, p, last);
    HighAndLowAreExtremes(rates, symbol, p);
    var price := Aggregate(rates, symbol, p).value;
    var h :| h in rates && Matches(h, symbol, p) && h.Rate == price.High;
    var k :| 0 <= k < |rates| && rates[k] == h;
    var l :| l in rates && Matches(l, symbol, p) && l.Rate == price.Low;
    var n :| 0 <= n < |rates| && rates[n] == l;
    assert rates[high] in rates && rates[low] in rates;
    assert price.Open == rates[first].Rate;
    assert price.Close == rates[last].Rate;
    assert price.High == rates[high].Rate;
    assert price.Low == rates[low].Rate;
  }

  /** The daily, weekly and monthly queries, read off the records that supply their prices. */
  lemma DailyFromRecords(rates: seq<HourlyShareRate>, symbol: string, day: DateTime, first: int, last: int, high: int, low: int)
    requires PriceSources(rates, symbol, Daily(day), first, last, high, low)
    ensures GetDaily(rates, symbol, day) ==
      Some(AnalyticsPrice(rates[first].Rate, rates[last].Rate, rates[high].Rate, rates[low].Rate))
  {
    PriceFromRecords(rates, symbol, Daily(day), first, last, high, low);
  }

  lemma WeeklyFromRecords(rates: seq<HourlyShareRate>, symbol: string, year: int, week: int, first: int, last: int, high: int, low: int)
    requires PriceSources(rates, symbol, Weekly(year, week), first, last, high, low)
    ensures GetWeekly(rates, symbol, year, week) ==
      Some(AnalyticsPrice(rates[first].Rate, rates[last].Rate, rates[high].Rate, rates[low].Rate))
  {
    PriceFromRecords(rates, symbol, Weekly(year, week), first, last, high, low);
  }

  lemma MonthlyFromRecords(rates: seq<HourlyShareRate>, symbol: string, year: int, month: int, first: int, last: int, high: int, low: int)
    requires PriceSources(rates, symbol, Monthly(year, month), first, last, high, low)
    ensures GetMonthly(rates, symbol, year, month) ==
      Some(AnalyticsPrice(rates[first].Rate, rates[last].Rate, rates[high].Rate, rates[low].Rate))
  {
    PriceFromRecords(rates, symbol, Monthly(year, month), first, last, high, low);
  }

  /**
   * When exactly two records match, the earlier in time and in repository
   * order supplies Open, the later Close, and the dearer of them High.
   */
  lemma TwoMatchesSources(rates: seq<HourlyShareRate>, symbol: string, p: Period, a: int, b: int)
    requires 0 <= a < b < |rates|
    requires forall j :: 0 <= j < |rates| ==> (Matches(rates[j], symbol, p) <==> j == a || j == b)
    requires Key(rates[a]) < Key(rates[b]) && rates[a].Rate <= rates[b].Rate
    ensures PriceSources(rates, symbol, p, a, b, b, a)
  {
  }

  /** Records 4 and 5 (same day), and 7 to 10 (January 2019), are in chronological order. */
  lemma KeysAscend()
    ensures var rates := ArrangedRates();
      && Key(rates[3]) < Key(rates[4])
      && Key(rates[6]) < Key(rates[7]) < Key(rates[8]) < Key(rates[9])
  {
    var rates := ArrangedRates();
    TicksOrderIsFieldOrder(rates[3].TimeStamp, rates[4].TimeStamp);
    TicksOrderIsFieldOrder(rates[6].TimeStamp, rates[7].TimeStamp);
    TicksOrderIsFieldOrder(rates[7].TimeStamp, rates[8].TimeStamp);
    TicksOrderIsFieldOrder(rates[8].TimeStamp, rates[9].TimeStamp);
  }

  /** On 2018-08-17 only records 4 and 5 are CBI's; records 3 and 6 are other symbols' on the same day. */
  lemma DailyMatches(day: DateTime, j: int)
    requires day.Year == 2018 && day.Month == 8 && day.Day == 17
    requires 0 <= j < |ArrangedRates()|
    ensures Matches(ArrangedRates()[j], "CBI", Daily(day)) <==> j == 3 || j == 4
  {
  }

  /**
   * 1 January 2019 is a Tuesday, so the week-1 offset of 2019 is -1: 1 to 6
   * January 2019 are week 1 (31 December 2018 keeps week 53 of 2018).
   */
  lemma Week1Of2019()
    ensures Jan1DayOfWeek(2019) == 2
    ensures FirstWeekStart(2019) == -1
  {
    assert DaysBeforeYear(2019) == 737059;
  }

  /** In January 2019 the week number is the day of the month divided by seven, plus one. */
  lemma January2019Weeks(t: DateTime)
    requires t.Year == 2019 && t.Month == 1
    ensures WeekOfYear(t) == t.Day / 7 + 1
  {
    Week1Of2019();
    assert DayOfYear(t) == t.Day;
  }

  /** Week 1 of 2019 holds 1 to 6 January 2019: of CBI's records, 7 and 8. */
  lemma WeeklyMatches(j: int)
    requires 0 <= j < |ArrangedRates()|
    ensures Matches(ArrangedRates()[j], "CBI", Weekly(2019, 1)) <==> j == 6 || j == 7
  {
    var rates := ArrangedRates();
    if j < 6 {
      assert rates[j].TimeStamp.Year < 2019;
    } else {
      January2019Weeks(rates[j].TimeStamp);
    }
  }

  lemma MonthlyMatches(j: int)
    requires 0 <= j < |ArrangedRates()|
    ensures Matches(ArrangedRates()[j], "CBI", Monthly(2019, 1)) <==> 6 <= j
  {
  }

  /** Of CBI's records on 2018-08-17, record 4 is the earlier and cheaper and record 5 the later and dearer. */
  lemma DailySources(day: DateTime)
    requires day.Year == 2018 && day.Month == 8 && day.Day == 17
    ensures PriceSources(ArrangedRates(), "CBI", Daily(day), 3, 4, 4, 3)
  {
    var rates := ArrangedRates();
    KeysAscend();
    forall j | 0 <= j < |rates| ensures Matches(rates[j], "CBI", Daily(day)) <==> j == 3 || j == 4 {
      DailyMatches(day, j);
    }
    TwoMatchesSources(rates, "CBI", Daily(day), 3, 4);
  }

  /**
   * GetDailyAsync("CBI", 2018-08-17 05:10:15): Open 300, Close 400, High 400,
   * Low 300; the same at any other time of that day.
   */
  lemma DailyExample(day: DateTime)
    requires day.Year == 2018 && day.Month == 8 && day.Day == 17
    ensures GetDaily(ArrangedRates(), "CBI", day) == Some(AnalyticsPrice(300.0, 400.0, 400.0, 300.0))
  {
    DailySources(day);
    DailyFromRecords(ArrangedRates(), "CBI", day, 3, 4, 4, 3);
  }

  /** In week 1 of 2019 CBI has records 7 and 8, the later one dearer. */
  lemma WeeklySources(p: Period)
    requires p == Weekly(2019, 1)
    ensures PriceSources(ArrangedRates(), "CBI", p, 6, 7, 7, 6)
  {
    var rates := ArrangedRates();
    KeysAscend();
    forall j | 0 <= j < |rates| ensures Matches(rates[j], "CBI", p) <==> j == 6 || j == 7 {
      WeeklyMatches(j);
    }
    TwoMatchesSources(rates, "CBI", p, 6, 7);
  }

  /** GetWeeklyAsync("CBI", 2019, 1): Open 999, Close 1999, High 1999, Low 999. */
  lemma WeeklyExample()
    ensures GetWeekly(ArrangedRates(), "CBI", 2019, 1) == Some(AnalyticsPrice(999.0, 1999.0, 1999.0, 999.0))
  {
    WeeklySources(Weekly(2019, 1));
    WeeklyFromRecords(ArrangedRates(), "CBI", 2019, 1, 6, 7, 7, 6);
  }

  /** In January 2019 CBI has records 7 to 10; record 9 is the cheapest and record 10 the dearest and latest. */
  lemma MonthlySources(p: Period)
    requires p == Monthly(2019, 1)
    ensures PriceSources(ArrangedRates(), "CBI", p, 6, 9, 9, 8)
  {
    var rates := ArrangedRates();
    KeysAscend();
    forall j | 0 <= j < |rates| && Matches(rates[j], "CBI", p)
      ensures Key(rates[6]) <= Key(rates[j]) <= Key(rates[9]) && rates[8].Rate <= rates[j].Rate <= rates[9].Rate
    {
      MonthlyMatches(j);
    }
    forall j | 0 <= j < 6 ensures !Matches(rates[j], "CBI", p) {
      MonthlyMatches(j);
    }
    MonthlyMatches(6);
    MonthlyMatches(8);
    MonthlyMatches(9);
  }

  /** GetMonthlyAsync("CBI", 2019, 1): Open 999, Close 2010, High 2010, Low 201. */
  lemma MonthlyExample()
    ensures GetMonthly(ArrangedRates(), "CBI", 2019, 1) == Some(AnalyticsPrice(999.0, 2010.0, 2010.0, 201.0))
  {
    MonthlySources(Monthly(2019, 1));
    MonthlyFromRecords(ArrangedRates(), "CBI", 2019, 1, 6, 9, 9, 8);
  }
}
