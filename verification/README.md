# CrossExchange analytics and request validation, in Dafny

This project models the analytics part of the CrossExchange back-office
service. `AnalyticsService` reduces the hourly share-rate records of one
symbol to an open/close/high/low price for a calendar day, a week of a year
or a month of a year. `AnalyticsController` exposes the three queries over
HTTP, checks their route values, and answers 400, 404 or 200. Three request
models carry validation attributes, whose rules are modelled too: the
`[StringRange]` attribute, the hourly share-rate body and the trade body.

Every modelled file is pure code, so the model is datatypes, functions and
lemmas.

- `wrappers.dfy` holds `Option`. A C# null becomes `None`.
- `gregorian.dfy` models the .NET `DateTime` values the service reads: the
  calendar fields, the tick count that `OrderBy(r => r.TimeStamp)` compares,
  and `GregorianCalendar.GetWeekOfYear` with the `FirstFourDayWeek` rule and
  Monday as the first day of the week.
- `enumerable.dfy` models the LINQ operators the queries use: `Where`, the
  stable `OrderBy`, `Max`, `Min` and `Contains`. They are generic over the
  element type, the predicate and the key.
- `analytics_service.dfy` models the three queries and
  `CalculateAnalyticsPrice`, with their properties. `analytics_service_examples.dfy`
  holds the service's unit-test data and expected prices, proved of the model.
- `analytics_controller.dfy` models the three actions, the range checks and `Map`.
- `data_annotations.dfy` models the framework rules the model attributes rely
  on: `[Required]` on a string, `[RegularExpression]`, `[Range]`, and how
  `GetValidationResult` applies an attribute's `ErrorMessage`.
- `string_range.dfy`, `hourly_share_rate_model.dfy` and `trade_model.dfy`
  model the custom attribute and the two request bodies. Model validation is
  a list of errors in attribute order; every attribute is checked.

Three behaviours of the code that are easy to miss:

- The week number is not ISO 8601's. `GetWeekOfYear` with `FirstFourDayWeek`
  never moves the last days of December into week 1 of the next year.
  Monday 2019-12-30 is in week 53 of 2019, and Friday 2021-01-01 is in week 53
  as well (`GregorianExamples`).
- Out-of-range days are not the only bad dates. A month in 1..12 and a day in
  1..31 pass the controller's checks even when the date does not exist, such
  as 30 February. `new DateTime` then throws, and the action does not catch
  the exception. The model returns `ArgumentOutOfRange` for this case.
- Without data-annotation localization, the trade model's
  `ErrorMessage = "Allowed values are BUY or SELL"` is never reported.
  `StringRangeAttribute` always supplies its own message, and
  `GetValidationResult` uses the attribute's `ErrorMessage` only for a failure
  without one.

## Model

| member | source | states |
|---|---|---|
| Gregorian.DaysInMonth | XOProject.Api/Controller/AnalyticsController.cs:33 | A month has 28 to 31 days; it has 29 exactly in February of a leap year. |
| Gregorian.DaysBeforeMonthAccumulates | XOProject.Services/Exchange/AnalyticsService.cs:64-69 | The cumulative day table adds each month's length, and the twelve months fill the year exactly. |
| Gregorian.Midnight | XOProject.Api/Controller/AnalyticsController.cs:33 | `new DateTime(year, month, day)` keeps the three date fields and has a zero time of day. |
| Gregorian.DaysBeforeYearGrows | XOProject.Services/Exchange/AnalyticsService.cs:31 | Every day of an earlier year comes before 1 January of any later year. |
| Gregorian.DayOfYear | XOProject.Services/Exchange/AnalyticsService.cs:31 | The day of the year lies between 1 and the length of the year. |
| Gregorian.SameYearDayOrder | XOProject.Services/Exchange/AnalyticsService.cs:31 | In one year, equal dates have the same day number and a later date has a larger one. |
| Gregorian.TicksOrderIsFieldOrder | XOProject.Services/Exchange/AnalyticsService.cs:31 | Ordering by timestamp (by ticks) is ordering by year, month, day, hour, minute, second and sub-second in turn; equal ticks mean equal instants. |
| Gregorian.FirstWeekOffset | XOProject.Services/Exchange/AnalyticsService.cs:64-69 | Week 1 begins on a Monday at most three days before or after 1 January. |
| Gregorian.WeekOfYear | XOProject.Services/Exchange/AnalyticsService.cs:64-69 | `GetWeekNumber` returns a week from 1 to 53, never 54. |
| Gregorian.BeforeWeekOneIsPreviousYear | XOProject.Services/Exchange/AnalyticsService.cs:64-69 | A day before week 1 of its year takes the week number of 31 December of the previous year, which lies in that year's own weeks. |
| Gregorian.YearOneBeginsWeekOne | XOProject.Services/Exchange/AnalyticsService.cs:64-69 | 0001-01-01 is a Monday, so no date lies before week 1 of year 1. |
| Gregorian.DayOfWeekFromJan1 | XOProject.Services/Exchange/AnalyticsService.cs:64-69 | The weekday of any date is the weekday of 1 January, advanced by one per day of the year. |
| Gregorian.FourthOfJanuaryInWeekOne | XOProject.Services/Exchange/AnalyticsService.cs:64-69 | Under the first-four-day rule, 4 January is always in week 1. |
| Gregorian.DecemberIsLateInTheYear | XOProject.Services/Exchange/AnalyticsService.cs:64-69 | A December date is in week 48 or later, and from the 29th in week 52 or later: never week 1 of the next year. |
| Gregorian.WeekAdvancesOnMonday | XOProject.Services/Exchange/AnalyticsService.cs:64-69 | Weeks begin on Monday: from one day to the next in a year, the week number goes up exactly when the later day is a Monday. |
| GregorianExamples.EndOf2019IsWeek53 | XOProject.Services/Exchange/AnalyticsService.cs:64-69 | Monday 2019-12-30 has week number 53, where ISO 8601 gives week 1. |
| GregorianExamples.EndOf2018IsWeek53 | XOProject.Services/Exchange/AnalyticsService.cs:64-69 | Monday 2018-12-31 is in week 53 of 2018, not in week 1 of 2019. |
| GregorianExamples.StartOf2021IsWeek53 | XOProject.Services/Exchange/AnalyticsService.cs:64-69 | Friday 2021-01-01 has the week number of 2020-12-31, week 53. |
| Enumerable.Where | XOProject.Services/Exchange/AnalyticsService.cs:27-30 | The filter keeps no more elements than it is given, and every element it keeps satisfies the predicate. |
| Enumerable.WhereMembers | XOProject.Services/Exchange/AnalyticsService.cs:27-30 | An element is in the result exactly when it is in the input and satisfies the predicate. |
| Enumerable.WhereAppend | XOProject.Services/Exchange/AnalyticsService.cs:27-30 | Filtering a concatenation is the concatenation of the filtered parts, so source order is preserved. |
| Enumerable.WhereAgree | XOProject.Services/Exchange/AnalyticsService.cs:27-30 | Two predicates that agree on every element give the same result. |
| Enumerable.WhereNarrows | XOProject.Services/Exchange/AnalyticsService.cs:27-30 | Filtering first by a weaker test and then by a stronger one is filtering by the stronger one alone. |
| Enumerable.Contains | XOProject.Api/ValidationAttributes/StringRangeAttribute.cs:15 | `Contains` holds exactly when some position of the array holds an equal value. |
| Enumerable.Insert | XOProject.Services/Exchange/AnalyticsService.cs:31 | One insertion step of the sort adds exactly the inserted element to the elements of the sequence. |
| Enumerable.InsertKeepsSorted | XOProject.Services/Exchange/AnalyticsService.cs:31 | Inserting into a sequence sorted by key keeps it sorted. |
| Enumerable.InsertEnds | XOProject.Services/Exchange/AnalyticsService.cs:31 | Inserting an element that came earlier in the input into a sorted sequence puts it first when its key is equal or smaller than the first key, and last only when its key is strictly larger than the last key, so ties keep input order. |
| Enumerable.OrderBy | XOProject.Services/Exchange/AnalyticsService.cs:31 | The result is sorted by key and is a permutation of the input. |
| Enumerable.OrderByMembers | XOProject.Services/Exchange/AnalyticsService.cs:31 | Sorting keeps exactly the elements of its input. |
| Enumerable.Max | XOProject.Services/Exchange/AnalyticsService.cs:80 | `Max` is attained by some element and bounds every element from above. |
| Enumerable.Min | XOProject.Services/Exchange/AnalyticsService.cs:81 | `Min` is attained by some element and bounds every element from below. |
| Enumerable.ExtremesDependOnMembersOnly | XOProject.Services/Exchange/AnalyticsService.cs:80-81 | Two sequences with the same elements have the same Max and the same Min, whatever their order. |
| Enumerable.FirstOfOrdered | XOProject.Services/Exchange/AnalyticsService.cs:27-82 | After Where and the stable OrderBy, the first element is the selected element with the smallest key, the first in source order among equals. |
| Enumerable.LastOfOrdered | XOProject.Services/Exchange/AnalyticsService.cs:27-83 | After Where and the stable OrderBy, the last element is the selected element with the largest key, the last in source order among equals. |
| Enumerable.FirstAndLastExist | XOProject.Services/Exchange/AnalyticsService.cs:27-31 | When some element is selected, an earliest and a latest selected element exist. |
| AnalyticsService.CalculateAnalyticsPrice | XOProject.Services/Exchange/AnalyticsService.cs:71-85 | Null exactly for an empty query; otherwise Open is the first rate and Close the last, High and Low are rates of the query that bound all its rates, and Low <= Open, Close <= High. |
| AnalyticsService.GetDaily | XOProject.Services/Exchange/AnalyticsService.cs:24-35 | Null exactly when no record has the symbol and the year, month and day of `day`; otherwise Low <= Open, Close <= High. |
| AnalyticsService.GetWeekly | XOProject.Services/Exchange/AnalyticsService.cs:37-46 | Null exactly when no record has the symbol, the year and the week number; otherwise Low <= Open, Close <= High. |
| AnalyticsService.GetMonthly | XOProject.Services/Exchange/AnalyticsService.cs:48-58 | Null exactly when no record has the symbol, the year and the month; otherwise Low <= Open, Close <= High. |
| AnalyticsService.OrderedMembers | XOProject.Services/Exchange/AnalyticsService.cs:26-31 | A record reaches CalculateAnalyticsPrice exactly when it is in the repository and matches the symbol and the period. |
| AnalyticsService.AbsentIffNoMatch | XOProject.Services/Exchange/AnalyticsService.cs:71-76 | The result is null exactly when no record matches the symbol and the period. |
| AnalyticsService.HighAndLowAreExtremes | XOProject.Services/Exchange/AnalyticsService.cs:80-81 | High and Low are rates of matching records, and every matching rate lies between them. |
| AnalyticsService.OpenIsEarliestMatch | XOProject.Services/Exchange/AnalyticsService.cs:31-82 | Open is the rate of the matching record with the earliest timestamp, the first in repository order on a tie. |
| AnalyticsService.CloseIsLatestMatch | XOProject.Services/Exchange/AnalyticsService.cs:31-83 | Close is the rate of the matching record with the latest timestamp, the last in repository order on a tie. |
| AnalyticsService.EarliestAndLatestExist | XOProject.Services/Exchange/AnalyticsService.cs:31-83 | Whenever a record matches, an earliest and a latest matching record exist, so Open and Close are determined. |
| AnalyticsService.OfSymbol | XOProject.Services/Exchange/AnalyticsService.cs:27 | The records of one symbol are exactly the repository's records with that symbol. |
| AnalyticsService.OtherSymbolsIgnored | XOProject.Services/Exchange/AnalyticsService.cs:27 | Two repositories with the same records of the symbol, in the same order, give the same result, wherever other symbols' records stand. |
| AnalyticsService.HighLowIgnoreOrder | XOProject.Services/Exchange/AnalyticsService.cs:73-81 | Reordering the repository changes neither whether a result exists nor its High and Low. |
| AnalyticsService.DailyIgnoresTimeOfDay | XOProject.Services/Exchange/AnalyticsService.cs:28-30 | The daily result depends only on the date of `day`, never on its time of day. |
| AnalyticsServiceExamples.ArrangedRates | UnitTests/XOProject.Services.Tests/AnalyticsServiceTests.cs:81-156 | The test repository holds ten records. |
| AnalyticsServiceExamples.PriceFromRecords | XOProject.Services/Exchange/AnalyticsService.cs:71-85 | When it is known which matching records are earliest, latest, dearest and cheapest, the result is their four rates. |
| AnalyticsServiceExamples.DailyFromRecords | XOProject.Services/Exchange/AnalyticsService.cs:24-35 | The daily result is read off the records that supply its four prices. |
| AnalyticsServiceExamples.WeeklyFromRecords | XOProject.Services/Exchange/AnalyticsService.cs:37-46 | The weekly result is read off the records that supply its four prices. |
| AnalyticsServiceExamples.MonthlyFromRecords | XOProject.Services/Exchange/AnalyticsService.cs:48-58 | The monthly result is read off the records that supply its four prices. |
| AnalyticsServiceExamples.TwoMatchesSources | XOProject.Services/Exchange/AnalyticsService.cs:71-85 | With exactly two matches, the earlier one gives Open, the later one Close, and the dearer one High. |
| AnalyticsServiceExamples.KeysAscend | UnitTests/XOProject.Services.Tests/AnalyticsServiceTests.cs:106-155 | Records 4 and 5, and records 7 to 10, are in chronological order. |
| AnalyticsServiceExamples.DailyMatches | UnitTests/XOProject.Services.Tests/AnalyticsServiceTests.cs:36 | On 2018-08-17, CBI's records are 4 and 5 only; records 3 and 6 on the same day belong to other symbols. |
| AnalyticsServiceExamples.Week1Of2019 | UnitTests/XOProject.Services.Tests/AnalyticsServiceTests.cs:53 | 1 January 2019 is a Tuesday and the week-1 offset of 2019 is -1, so 1 to 6 January 2019 are week 1. |
| AnalyticsServiceExamples.January2019Weeks | UnitTests/XOProject.Services.Tests/AnalyticsServiceTests.cs:53 | In January 2019 the week number is the day of the month divided by seven, plus one. |
| AnalyticsServiceExamples.WeeklyMatches | UnitTests/XOProject.Services.Tests/AnalyticsServiceTests.cs:53 | In week 1 of 2019 (1 to 6 January), CBI's records are 7 and 8 only. |
| AnalyticsServiceExamples.MonthlyMatches | UnitTests/XOProject.Services.Tests/AnalyticsServiceTests.cs:71 | In January 2019, CBI's records are 7 to 10. |
| AnalyticsServiceExamples.DailySources | UnitTests/XOProject.Services.Tests/AnalyticsServiceTests.cs:36-43 | On 2018-08-17, record 4 is CBI's earliest and cheapest record and record 5 its latest and dearest. |
| AnalyticsServiceExamples.DailyExample | UnitTests/XOProject.Services.Tests/AnalyticsServiceTests.cs:29-44 | The daily price of CBI on 2018-08-17, at any time of day, is Open 300, Close 400, High 400, Low 300. |
| AnalyticsServiceExamples.WeeklySources | UnitTests/XOProject.Services.Tests/AnalyticsServiceTests.cs:53-60 | In week 1 of 2019, record 7 is CBI's earliest and cheapest record and record 8 its latest and dearest. |
| AnalyticsServiceExamples.WeeklyExample | UnitTests/XOProject.Services.Tests/AnalyticsServiceTests.cs:46-61 | The price of CBI in week 1 of 2019 is Open 999, Close 1999, High 1999, Low 999. |
| AnalyticsServiceExamples.MonthlySources | UnitTests/XOProject.Services.Tests/AnalyticsServiceTests.cs:71-78 | In January 2019, record 7 is CBI's earliest record, record 9 its cheapest, and record 10 its latest and dearest. |
| AnalyticsServiceExamples.MonthlyExample | UnitTests/XOProject.Services.Tests/AnalyticsServiceTests.cs:64-79 | The price of CBI in January 2019 is Open 999, Close 2010, High 2010, Low 201. |
| AnalyticsController.IsDayValid | XOProject.Api/Controller/AnalyticsController.cs:101-108 | A day passes exactly when it lies in 1..31, whatever the month. |
| AnalyticsController.IsMonthValid | XOProject.Api/Controller/AnalyticsController.cs:111-118 | A month passes exactly when it lies in 1..12. |
| AnalyticsController.IsWeekOfYearValid | XOProject.Api/Controller/AnalyticsController.cs:120-127 | A week passes exactly when it lies in 1..54. |
| AnalyticsController.Map | XOProject.Api/Controller/AnalyticsController.cs:131-140 | The response copies Open, Close, High and Low unchanged, so a well-formed price stays well formed. |
| AnalyticsController.Daily | XOProject.Api/Controller/AnalyticsController.cs:24-47 | 400 exactly when the month or the day is out of range; an exception exactly for a non-existent date that passes the checks; 404 exactly when no record matches the date; otherwise 200 with the symbol, midnight of the date and the mapped price. |
| AnalyticsController.Weekly | XOProject.Api/Controller/AnalyticsController.cs:49-72 | 400 exactly when the week is outside 1..54; 404 exactly when no record matches the year and the week; otherwise 200 echoing symbol, year and week with the mapped price. |
| AnalyticsController.Monthly | XOProject.Api/Controller/AnalyticsController.cs:74-97 | 400 exactly when the month is outside 1..12; 404 exactly when no record matches the year and the month; otherwise 200 echoing symbol, year and month with the mapped price. |
| AnalyticsController.Week54NeverFound | XOProject.Api/Controller/AnalyticsController.cs:53-62 | Week 54 passes the range check but always gives 404. |
| AnalyticsController.FebruaryThirtiethThrows | XOProject.Api/Controller/AnalyticsController.cs:28-33 | 30 February passes both range checks and then makes the date constructor throw. |
| AnalyticsController.DailyAnswersForTheWholeDay | XOProject.Api/Controller/AnalyticsController.cs:33-38 | The daily action gives the same answer as the service queried at any time of the requested day. |
| DataAnnotations.Trim | XOProject.Api/Model/TradeModel.cs:9 | The trimmed string is empty exactly when the string is all white space; otherwise it begins and ends with other characters. |
| DataAnnotations.RequiredMeansNonBlank | XOProject.Api/Model/TradeModel.cs:9 | [Required] accepts exactly a non-null string with some character that is not white space. |
| DataAnnotations.GetValidationResult | XOProject.Api/Model/TradeModel.cs:18 | Success stays success; a failure keeps its own message and takes the attribute's ErrorMessage only when its own is empty. |
| StringRange.IsValid | XOProject.Api/ValidationAttributes/StringRangeAttribute.cs:13-21 | Valid exactly when AllowedValues is set and contains the value (null included, compared exactly); every failure says "Allowed values were not found.". |
| StringRange.NoAllowedValuesRejectsAll | XOProject.Api/ValidationAttributes/StringRangeAttribute.cs:15 | Without allowed values, every value is refused, null included. |
| StringRange.NullNeedsNullAllowed | XOProject.Api/ValidationAttributes/StringRangeAttribute.cs:15 | A null value is valid only when null is one of the allowed values. |
| StringRange.ErrorMessageIsNeverApplied | XOProject.Api/ValidationAttributes/StringRangeAttribute.cs:20 | GetValidationResult always reports the attribute's own message, whatever ErrorMessage is set (without data-annotation localization). |
| HourlyShareRateModels.Validate | XOProject.Api/Model/HourlyShareRateModel.cs:10-19 | No errors exactly when the symbol is three capital letters and the rate lies in [0, max]; each error is reported exactly when its own attribute fails. |
| HourlyShareRateModels.SymbolRules | XOProject.Api/Model/HourlyShareRateModel.cs:13-15 | [Required] and `^[A-Z]{3}$` together accept exactly three upper-case ASCII letters. |
| HourlyShareRateModels.AcceptsThreeCapitals | XOProject.Api/Model/HourlyShareRateModel.cs:13-15 | "CBI" with a rate in range passes. |
| HourlyShareRateModels.RefusesLowerCase | XOProject.Api/Model/HourlyShareRateModel.cs:14 | "cbi" fails the pattern alone, with its message. |
| HourlyShareRateModels.RefusesDigits | XOProject.Api/Model/HourlyShareRateModel.cs:14 | "CB1" fails the pattern alone, with its message. |
| HourlyShareRateModels.RefusesMissingSymbolAndNegativeRate | XOProject.Api/Model/HourlyShareRateModel.cs:13-18 | A null symbol fails [Required] (the pattern lets null through), and a negative rate fails [Range]. |
| HourlyShareRateModels.IdAndTimeStampIgnored | XOProject.Api/Model/HourlyShareRateModel.cs:8-11 | Neither the Id nor the timestamp takes part in validation. |
| TradeModels.Validate | XOProject.Api/Model/TradeModel.cs:9-19 | No errors exactly when the symbol is non-blank and the action is exactly "BUY" or "SELL"; an invalid action is reported with StringRange's message, never with the declared ErrorMessage (without data-annotation localization). |
| TradeModels.ActionExamples | XOProject.Api/Model/TradeModel.cs:18-19 | "SELL" passes; "buy" and a null action are refused. |
| TradeModels.SharesAndPortfolioIgnored | XOProject.Api/Model/TradeModel.cs:12-16 | The number of shares and the portfolio never take part in validation. |

## Left out

- ShareService, TradeService, the repositories and Entity Framework are not part of this model. The repository's query is a sequence of records in repository order.
- `async`/`Task`: each awaited call is modelled as a plain function call.
- `CultureInfo.CurrentCulture.Calendar` is taken to be the Gregorian calendar. Other cultures' calendars are not modelled.
- Gregorian.WeekOfYear: the framework's fallback for a date before week 1 is a recursive call on 31 December of the previous year. The model computes that day's week number directly, and `BeforeWeekOneIsPreviousYear` proves the two agree. The framework branch for dates before the minimum supported date cannot be reached, because 0001-01-01 is a Monday and begins week 1.
- `decimal` is modelled as `real`: decimal rounding, scale and its 28-digit range are not modelled.
- HourlyShareRateModels.Validate: the `[Range]` upper bound `Constants.MaxDecimalValue` is a parameter, because the constants file is not part of this model. The lower bound is written "0M", a C# literal suffix that the decimal parse RangeAttribute applies to its string bounds does not accept, so as written validation of this model throws rather than reporting errors; the model uses the evidently intended bound 0.
- ASP.NET routing, model binding and the 500 response for an uncaught exception are not modelled. A route value that does not bind to an `int` still reaches the action, as 0; the model takes the integer the action receives, so year 0 gives `ArgumentOutOfRange`.
- The `[Range]` attributes on the route parameters of the analytics actions are not modelled. The actions do not consult ModelState, and their own checks decide the 400 answer.
- StringRange.IsValid: the value is taken to be a string or null. `ToString()` of other property types is not modelled.
- A null symbol is not modelled. A record with a null symbol matches only a query for a null symbol, and the controller never makes one, because its route value is never null.
- The `[Required]` attributes on value-type properties (TimeStamp, Rate, NoOfShares, PortfolioId) always pass, so the model does not list them.
- Regular-expression matching in general is not modelled. Only the single pattern `^[A-Z]{3}$` is modelled, as a predicate.
