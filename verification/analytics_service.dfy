/**
 * The analytics service: open/close/high/low of one share over a calendar
 * day, a week of a year or a month of a year, computed from the hourly
 * share-rate records of the repository. The repository's query is a
 * sequence of records in repository order.
 */
module AnalyticsService {
  import opened Wrappers
  import opened Gregorian
  import Enumerable

  datatype HourlyShareRate = HourlyShareRate(Id: int, Symbol: string, Rate: real, TimeStamp: DateTime)

  datatype AnalyticsPrice = AnalyticsPrice(Open: real, Close: real, High: real, Low: real)

  /** The window a query asks about. */
  datatype Period =
    | Daily(Date: DateTime)
    | Weekly(Year: int, Week: int)
    | Monthly(Year: int, Month: int)

  /** The date-field test of each query's Where clause; the time of day never takes part. */
  predicate InPeriod(t: DateTime, p: Period) {
    match p
    case Daily(d) => t.Year == d.Year && t.Month == d.Month && t.Day == d.Day
    case Weekly(year, week) => t.Year == year && WeekOfYear(t) == week
    case Monthly(year, month) => t.Year == year && t.Month == month
  }

  predicate Matches(r: HourlyShareRate, symbol: string, p: Period) {
    r.Symbol == symbol && InPeriod(r.TimeStamp, p)
  }

  /** The Where clause's predicate. */
  function MatchesIn(symbol: string, p: Period): HourlyShareRate -> bool {
    (r: HourlyShareRate) => Matches(r, symbol, p)
  }

  /** The OrderBy key `r => r.TimeStamp`: DateTime values compare by their tick count. */
  function Key(r: HourlyShareRate): int {
    Ticks(r.TimeStamp)
  }

  /** The Max/Min selector `r => r.Rate`. */
  function RateOf(r: HourlyShareRate): real {
    r.Rate
  }

  /** Low <= Open, Close <= High. */
  predicate WellFormedPrice(price: AnalyticsPrice) {
    price.Low <= price.Open <= price.High && price.Low <= price.Close <= price.High
  }

  /**
   * CalculateAnalyticsPrice: absent (null) for an empty query; otherwise
   * the first and last rates of the ordered records, and their largest and
   * smallest.
   */
  function CalculateAnalyticsPrice(ordered: seq<HourlyShareRate>): (price: Option<AnalyticsPrice>)
    ensures price.None? <==> ordered == []
    ensures price.Some? ==> price.value.Open == ordered[0].Rate && price.value.Close == ordered[|ordered| - 1].Rate
    ensures price.Some? ==> forall r :: r in ordered ==> price.value.Low <= r.Rate <= price.value.High
    ensures price.Some? ==> (exists r :: r in ordered && r.Rate == price.value.High)
    ensures price.Some? ==> (exists r :: r in ordered && r.Rate == price.value.Low)
    ensures price.Some? ==> WellFormedPrice(price.value)
  {
    if ordered == [] then None
    else
      var high := Enumerable.Max(ordered, RateOf);
      var low := Enumerable.Min(ordered, RateOf);
      assert ordered[0] in ordered && ordered[|ordered| - 1] in ordered;
      Some(AnalyticsPrice(
        Open := ordered[0].Rate,
        Close := ordered[|ordered| - 1].Rate,
        High := high,
        Low := low))
  }

  /** The records of `symbol` in the period, ordered by timestamp (a stable sort). */
  function Ordered(rates: seq<HourlyShareRate>, symbol: string, p: Period): seq<HourlyShareRate> {
    Enumerable.OrderBy(Enumerable.Where(rates, MatchesIn(symbol, p)), Key)
  }

  /** Where, then OrderBy, then CalculateAnalyticsPrice: the pipeline shared by the three queries. */
  function Aggregate(rates: seq<HourlyShareRate>, symbol: string, p: Period): Option<AnalyticsPrice> {
    CalculateAnalyticsPrice(Ordered(rates, symbol, p))
  }

  /** GetDailyAsync: the records of `symbol` on the calendar date of `day`. */
  function GetDaily(rates: seq<HourlyShareRate>, symbol: string, day: DateTime): (price: Option<AnalyticsPrice>)
    ensures price.None? <==> forall r :: r in rates ==>
      !(r.Symbol == symbol && r.TimeStamp.Year == day.Year && r.TimeStamp.Month == day.Month && r.TimeStamp.Day == day.Day)
    ensures price.Some? ==> WellFormedPrice(price.value)
  {
    AbsentIffNoMatch(rates, symbol, Daily(day));
    Aggregate(rates, symbol, Daily(day))
  }

  /** GetWeeklyAsync: the records of `symbol` whose calendar year is `year` and whose week number is `week`. */
  function GetWeekly(rates: seq<HourlyShareRate>, symbol: string, year: int, week: int): (price: Option<AnalyticsPrice>)
    ensures price.None? <==> forall r :: r in rates ==>
      !(r.Symbol == symbol && r.TimeStamp.Year == year && WeekOfYear(r.TimeStamp) == week)
    ensures price.Some? ==> WellFormedPrice(price.value)
  {
    AbsentIffNoMatch(rates, symbol, Weekly(year, week));
    Aggregate(rates, symbol, Weekly(year, week))
  }

  /** GetMonthlyAsync: the records of `symbol` in month `month` of `year`. */
  function GetMonthly(rates: seq<HourlyShareRate>, symbol: string, year: int, month: int): (price: Option<AnalyticsPrice>)
    ensures price.None? <==> forall r :: r in rates ==>
      !(r.Symbol == symbol && r.TimeStamp.Year == year && r.TimeStamp.Month == month)
    ensures price.Some? ==> WellFormedPrice(price.value)
  {
    AbsentIffNoMatch(rates, symbol, Monthly(year, month));
    Aggregate(rates, symbol, Monthly(year, month))
  }

  // ---------------------------------------------------------------------
  // Properties of the pipeline
  // ---------------------------------------------------------------------

  /** A record reaches CalculateAnalyticsPrice exactly when it is in the repository and matches. */
  lemma OrderedMembers(rates: seq<HourlyShareRate>, symbol: string, p: Period, r: HourlyShareRate)
    ensures r in Ordered(rates, symbol, p) <==> r in rates && Matches(r, symbol, p)
  {
    Enumerable.OrderByMembers(Enumerable.Where(rates, MatchesIn(symbol, p)), Key, r);
    Enumerable.WhereMembers(rates, MatchesIn(symbol, p), r);
  }

  /** The result is absent exactly when no record matches the symbol and the period. */
  lemma AbsentIffNoMatch(rates: seq<HourlyShareRate>, symbol: string, p: Period)
    ensures Aggregate(rates, symbol, p).None? <==> forall r :: r in rates ==> !Matches(r, symbol, p)
  {
    var o := Ordered(rates, symbol, p);
    if o != [] {
      OrderedMembers(rates, symbol, p, o[0]);
    } else {
      forall r | r in rates ensures !Matches(r, symbol, p) {
        OrderedMembers(rates, symbol, p, r);
      }
    }
  }

  /** High is the largest and Low the smallest rate among the matching records. */
  lemma HighAndLowAreExtremes(rates: seq<HourlyShareRate>, symbol: string, p: Period)
    requires Aggregate(rates, symbol, p).Some?
    ensures var price := Aggregate(rates, symbol, p).value;
      && (forall r :: r in rates && Matches(r, symbol, p) ==> price.Low <= r.Rate <= price.High)
      && (exists r :: r in rates && Matches(r, symbol, p) && r.Rate == price.High)
      && (exists r :: r in rates && Matches(r, symbol, p) && r.Rate == price.Low)
  {
    var price := Aggregate(rates, symbol, p).value;
    forall r | r in rates && Matches(r, symbol, p) ensures price.Low <= r.Rate <= price.High {
      OrderedMembers(rates, symbol, p, r);
    }
    var hi :| hi in Ordered(rates, symbol, p) && hi.Rate == price.High;
    OrderedMembers(rates, symbol, p, hi);
    var lo :| lo in Ordered(rates, symbol, p) && lo.Rate == price.Low;
    OrderedMembers(rates, symbol, p, lo);
  }

  /**
   * Record `i` is the earliest matching record: no matching record has an
   * earlier timestamp, and every matching record before it in repository
   * order has a strictly later one.
   */
  ghost predicate IsEarliestMatch(rates: seq<HourlyShareRate>, symbol: string, p: Period, i: int) {
    && 0 <= i < |rates| && Matches(rates[i], symbol, p)
    && (forall j :: 0 <= j < |rates| && Matches(rates[j], symbol, p) ==> Key(rates[i]) <= Key(rates[j]))
    && (forall j :: 0 <= j < i && Matches(rates[j], symbol, p) ==> Key(rates[i]) < Key(rates[j]))
  }

  /**
   * Record `i` is the latest matching record: no matching record has a
   * later timestamp, and every matching record after it in repository order
   * has a strictly earlier one.
   */
  ghost predicate IsLatestMatch(rates: seq<HourlyShareRate>, symbol: string, p: Period, i: int) {
    && 0 <= i < |rates| && Matches(rates[i], symbol, p)
    && (forall j :: 0 <= j < |rates| && Matches(rates[j], symbol, p) ==> Key(rates[j]) <= Key(rates[i]))
    && (forall j :: i < j < |rates| && Matches(rates[j], symbol, p) ==> Key(rates[j]) < Key(rates[i]))
  }

  /** Open is the rate of the earliest matching record: the first of them in repository order on a tie. */
  lemma OpenIsEarliestMatch(rates: seq<HourlyShareRate>, symbol: string, p: Period, i: int)
    requires IsEarliestMatch(rates, symbol, p, i)
    ensures Aggregate(rates, symbol, p).Some?
    ensures Ordered(rates, symbol, p)[0] == rates[i]
    ensures Aggregate(rates, symbol, p).value.Open == rates[i].Rate
  {
    assert Enumerable.IsFirstBy(rates, MatchesIn(symbol, p), Key, i);
    Enumerable.FirstOfOrdered(rates, MatchesIn(symbol, p), Key, i);
  }

  /** Close is the rate of the latest matching record: the last of them in repository order on a tie. */
  lemma CloseIsLatestMatch(rates: seq<HourlyShareRate>, symbol: string, p: Period, i: int)
    requires IsLatestMatch(rates, symbol, p, i)
    ensures Aggregate(rates, symbol, p).Some?
    ensures var o := Ordered(rates, symbol, p); o[|o| - 1] == rates[i]
    ensures Aggregate(rates, symbol, p).value.Close == rates[i].Rate
  {
    assert Enumerable.IsLastBy(rates, MatchesIn(symbol, p), Key, i);
    Enumerable.LastOfOrdered(rates, MatchesIn(symbol, p), Key, i);
  }

  /** Whenever some record matches, an earliest and a latest matching record exist, so Open and Close are determined. */
  lemma EarliestAndLatestExist(rates: seq<HourlyShareRate>, symbol: string, p: Period)
    requires exists r :: r in rates && Matches(r, symbol, p)
    ensures exists i :: IsEarliestMatch(rates, symbol, p, i)
    ensures exists i :: IsLatestMatch(rates, symbol, p, i)
  {
    var r :| r in rates && Matches(r, symbol, p);
    assert MatchesIn(symbol, p)(r);
    Enumerable.FirstAndLastExist(rates, MatchesIn(symbol, p), Key);
    var e :| Enumerable.IsFirstBy(rates, MatchesIn(symbol, p), Key, e);
    assert IsEarliestMatch(rates, symbol, p, e) by {
      assert forall j :: 0 <= j < |rates| ==> (MatchesIn(symbol, p)(rates[j]) <==> Matches(rates[j], symbol, p));
    }
    var l :| Enumerable.IsLastBy(rates, MatchesIn(symbol, p), Key, l);
    assert IsLatestMatch(rates, symbol, p, l) by {
      assert forall j :: 0 <= j < |rates| ==> (MatchesIn(symbol, p)(rates[j]) <==> Matches(rates[j], symbol, p));
    }
  }

  /** The test of the symbol alone. */
  function IsOfSymbol(symbol: string): HourlyShareRate -> bool {
    (r: HourlyShareRate) => r.Symbol == symbol
  }

  /** The records of `symbol`, in repository order. */
  function OfSymbol(rates: seq<HourlyShareRate>, symbol: string): (s: seq<HourlyShareRate>)
    ensures forall r :: r in s <==> r in rates && r.Symbol == symbol
  {
    var s := Enumerable.Where(rates, IsOfSymbol(symbol));
    forall r ensures r in s <==> r in rates && r.Symbol == symbol {
      Enumerable.WhereMembers(rates, IsOfSymbol(symbol), r);
    }
    s
  }

  /** Records of other symbols never influence the result, wherever they stand in the repository. */
  lemma OtherSymbolsIgnored(rates: seq<HourlyShareRate>, rates': seq<HourlyShareRate>, symbol: string, p: Period)
    requires OfSymbol(rates, symbol) == OfSymbol(rates', symbol)
    ensures Aggregate(rates, symbol, p) == Aggregate(rates', symbol, p)
  {
    Enumerable.WhereNarrows(rates, IsOfSymbol(symbol), MatchesIn(symbol, p));
    Enumerable.WhereNarrows(rates', IsOfSymbol(symbol), MatchesIn(symbol, p));
  }

  /**
   * Whether a result exists, and its High and Low, do not depend on the
   * order of the repository; only Open and Close do, through the timestamps
   * and the order of ties.
   */
  lemma HighLowIgnoreOrder(rates: seq<HourlyShareRate>, rates': seq<HourlyShareRate>, symbol: string, p: Period)
    requires multiset(rates) == multiset(rates')
    ensures Aggregate(rates, symbol, p).Some? == Aggregate(rates', symbol, p).Some?
    ensures Aggregate(rates, symbol, p).Some? ==>
      Aggregate(rates, symbol, p).value.High == Aggregate(rates', symbol, p).value.High &&
      Aggregate(rates, symbol, p).value.Low == Aggregate(rates', symbol, p).value.Low
  {
    var o, o' := Ordered(rates, symbol, p), Ordered(rates', symbol, p);
    forall r ensures r in o <==> r in o' {
      assert r in rates <==> r in multiset(rates);
      assert r in rates' <==> r in multiset(rates');
      OrderedMembers(rates, symbol, p, r);
      OrderedMembers(rates', symbol, p, r);
    }
    if o != [] {
      Enumerable.ExtremesDependOnMembersOnly(o, o', RateOf);
    }
  }

  /** The daily query looks only at the date of its argument, never at its time of day. */
  lemma DailyIgnoresTimeOfDay(rates: seq<HourlyShareRate>, symbol: string, day: DateTime, day': DateTime)
    requires day.Year == day'.Year && day.Month == day'.Month && day.Day == day'.Day
    ensures GetDaily(rates, symbol, day) == GetDaily(rates, symbol, day')
  {
    Enumerable.WhereAgree(rates, MatchesIn(symbol, Daily(day)), MatchesIn(symbol, Daily(day')));
  }
}
