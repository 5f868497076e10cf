/**
 * The analytics HTTP endpoints: each checks its route values, asks the
 * analytics service, and answers 400 Bad Request, 404 Not Found, or 200 OK
 * with a payload that echoes the request and carries the four prices.
 */
module AnalyticsController {
  import opened Wrappers
  import opened Gregorian
  import opened AnalyticsService

  datatype PriceModel = PriceModel(Open: real, Close: real, High: real, Low: real)

  datatype DailyModel = DailyModel(Symbol: string, Day: DateTime, Price: PriceModel)

  datatype WeeklyModel = WeeklyModel(Symbol: string, Year: int, Week: int, Price: PriceModel)

  datatype MonthlyModel = MonthlyModel(Symbol: string, Year: int, Month: int, Price: PriceModel)

  /**
   * What an action produces. ArgumentOutOfRange stands for the exception
   * `new DateTime(year, month, day)` throws on a date that does not exist;
   * the action does not catch it.
   */
  datatype ActionResult<T> = BadRequest | NotFound | Ok(value: T) | ArgumentOutOfRange

  /** The day check: any day from 1 to 31, whatever the month. */
  function IsDayValid(day: int): (valid: bool)
    ensures valid <==> 1 <= day <= 31
  {
    !(day < 1 || day > 31)
  }

  /** The month check: 1 to 12. */
  function IsMonthValid(month: int): (valid: bool)
    ensures valid <==> 1 <= month <= 12
  {
    !(month < 1 || month > 12)
  }

  /** The week check: 1 to 54, one more than any week number (see Week54NeverFound). */
  function IsWeekOfYearValid(week: int): (valid: bool)
    ensures valid <==> 1 <= week <= 54
  {
    !(week < 1 || week > 54)
  }

  /** The response's price: the four prices of the service's result, unchanged. */
  function Map(price: AnalyticsPrice): (m: PriceModel)
    ensures m.Open == price.Open && m.Close == price.Close && m.High == price.High && m.Low == price.Low
    ensures WellFormedPrice(price) ==> m.Low <= m.Open <= m.High && m.Low <= m.Close <= m.High
  {
    PriceModel(price.Open, price.Close, price.High, price.Low)
  }

  /** GET daily/{symbol}/{year}/{month}/{day}. */
  function Daily(rates: seq<HourlyShareRate>, symbol: string, year: int, month: int, day: int): (result: ActionResult<DailyModel>)
    ensures result.BadRequest? <==> !(1 <= month <= 12 && 1 <= day <= 31)
    ensures result.ArgumentOutOfRange? <==> 1 <= month <= 12 && 1 <= day <= 31 && !IsValidDate(year, month, day)
    ensures result.NotFound? <==> IsValidDate(year, month, day) && forall r :: r in rates ==>
      !(r.Symbol == symbol && r.TimeStamp.Year == year && r.TimeStamp.Month == month && r.TimeStamp.Day == day)
    ensures result.Ok? ==>
      && IsValidDate(year, month, day)
      && result.value.Symbol == symbol
      && result.value.Day == Midnight(year, month, day)
      && var price := GetDaily(rates, symbol, Midnight(year, month, day));
      && price.Some? && result.value.Price == Map(price.value)
      && result.value.Price.Low <= result.value.Price.Open <= result.value.Price.High
      && result.value.Price.Low <= result.value.Price.Close <= result.value.Price.High
  {
    if !IsMonthValid(month) || !IsDayValid(day) then
      BadRequest
    else if !IsValidDate(year, month, day) then
      ArgumentOutOfRange
    else
      var dateTime := Midnight(year, month, day);
      var price := GetDaily(rates, symbol, dateTime);
      if price.None? then
        NotFound
      else
        Ok(DailyModel(symbol, dateTime, Map(price.value)))
  }

  /** GET weekly/{symbol}/{year}/{week}. */
  function Weekly(rates: seq<HourlyShareRate>, symbol: string, year: int, week: int): (result: ActionResult<WeeklyModel>)
    ensures !result.ArgumentOutOfRange?
    ensures result.BadRequest? <==> !(1 <= week <= 54)
    ensures result.NotFound? <==> 1 <= week <= 54 && forall r :: r in rates ==>
      !(r.Symbol == symbol && r.TimeStamp.Year == year && WeekOfYear(r.TimeStamp) == week)
    ensures result.Ok? ==>
      && result.value.Symbol == symbol && result.value.Year == year && result.value.Week == week
      && var price := GetWeekly(rates, symbol, year, week);
      && price.Some? && result.value.Price == Map(price.value)
      && result.value.Price.Low <= result.value.Price.Open <= result.value.Price.High
      && result.value.Price.Low <= result.value.Price.Close <= result.value.Price.High
  {
    if !IsWeekOfYearValid(week) then
      BadRequest
    else
      var price := GetWeekly(rates, symbol, year, week);
      if price.None? then
        NotFound
      else
        Ok(WeeklyModel(symbol, year, week, Map(price.value)))
  }

  /** GET monthly/{symbol}/{year}/{month}. */
  function Monthly(rates: seq<HourlyShareRate>, symbol: string, year: int, month: int): (result: ActionResult<MonthlyModel>)
    ensures !result.ArgumentOutOfRange?
    ensures result.BadRequest? <==> !(1 <= month <= 12)
    ensures result.NotFound? <==> 1 <= month <= 12 && forall r :: r in rates ==>
      !(r.Symbol == symbol && r.TimeStamp.Year == year && r.TimeStamp.Month == month)
    ensures result.Ok? ==>
      && result.value.Symbol == symbol && result.value.Year == year && result.value.Month == month
      && var price := GetMonthly(rates, symbol, year, month);
      && price.Some? && result.value.Price == Map(price.value)
      && result.value.Price.Low <= result.value.Price.Open <= result.value.Price.High
      && result.value.Price.Low <= result.value.Price.Close <= result.value.Price.High
  {
    if !IsMonthValid(month) then
      BadRequest
    else
      var price := GetMonthly(rates, symbol, year, month);
      if price.None? then
        NotFound
      else
        Ok(MonthlyModel(symbol, year, month, Map(price.value)))
  }

  /** Week 54 passes the range check but no date has week number 54, so it is never found. */
  lemma Week54NeverFound(rates: seq<HourlyShareRate>, symbol: string, year: int)
    ensures Weekly(rates, symbol, year, 54) == NotFound
  {
    forall r | r in rates ensures WeekOfYear(r.TimeStamp) != 54 {
      var w := WeekOfYear(r.TimeStamp);
      assert w <= 53;
    }
  }

  /** February 30 passes both range checks; building the date then throws. */
  lemma FebruaryThirtiethThrows(rates: seq<HourlyShareRate>, symbol: string)
    ensures Daily(rates, symbol, 2019, 2, 30) == ArgumentOutOfRange
  {
  }

  /**
   * A daily request is answered from the date alone: it gives the same
   * result as the service queried at any time of that day.
   */
  lemma DailyAnswersForTheWholeDay(rates: seq<HourlyShareRate>, symbol: string, t: DateTime)
    ensures var result := Daily(rates, symbol, t.Year, t.Month, t.Day);
      && (result.NotFound? <==> GetDaily(rates, symbol, t).None?)
      && (result.Ok? ==> result.value.Price == Map(GetDaily(rates, symbol, t).value))
  {
    DailyIgnoresTimeOfDay(rates, symbol, t, Midnight(t.Year, t.Month, t.Day));
  }
}
