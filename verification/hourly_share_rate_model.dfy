/**
 * The request body for a new hourly share rate, and the checks its
 * attributes make: the symbol is required and must be three capital
 * letters, and the rate must lie between 0 and the largest decimal value.
 */
module HourlyShareRateModels {
  import opened Wrappers
  import opened Gregorian
  import opened DataAnnotations

  /** TimeStamp and Rate are value types: [Required] always holds for them. */
  datatype HourlyShareRateModel = HourlyShareRateModel(Id: int, TimeStamp: DateTime, Symbol: Option<string>, Rate: real)

  const SymbolMessage := "Share symbol should be all capital letters with 3 characters"

  /** The lower bound of [Range] on Rate. */
  const MinRate: real := 0.0

  /**
   * The errors of model validation, attribute by attribute; every attribute
   * is checked, so a blank symbol fails both [Required] and the pattern.
   * `maxDecimalValue` is the upper bound of [Range] on Rate.
   */
  function Validate(model: HourlyShareRateModel, maxDecimalValue: real): (errors: seq<ValidationError>)
    ensures errors == [] <==> model.Symbol.Some? && IsThreeCapitals(model.Symbol.value) && 0.0 <= model.Rate <= maxDecimalValue
    ensures RequiredError("Symbol") in errors <==> !Required(model.Symbol)
    ensures RegularExpressionError("Symbol", SymbolMessage) in errors <==>
      model.Symbol.Some? && model.Symbol.value != [] && !IsThreeCapitals(model.Symbol.value)
    ensures RangeError("Rate") in errors <==> !(0.0 <= model.Rate <= maxDecimalValue)
  {
    SymbolRules(model.Symbol);
    (if Required(model.Symbol) then [] else [RequiredError("Symbol")])
    + (if ThreeCapitalsPattern(model.Symbol) then [] else [RegularExpressionError("Symbol", SymbolMessage)])
    + (if InRange(model.Rate, MinRate, maxDecimalValue) then [] else [RangeError("Rate")])
  }

  /** [Required] and the pattern together accept exactly the strings of three capital letters. */
  lemma SymbolRules(symbol: Option<string>)
    ensures Required(symbol) && ThreeCapitalsPattern(symbol) <==> symbol.Some? && IsThreeCapitals(symbol.value)
  {
    if symbol.Some? && IsThreeCapitals(symbol.value) {
      var s := symbol.value;
      assert !IsWhiteSpace(s[0]);
    }
  }

  lemma AcceptsThreeCapitals(timeStamp: DateTime)
    ensures Validate(HourlyShareRateModel(1, timeStamp, Some("CBI"), 1.0), 10.0) == []
  {
  }

  /** Lower-case letters are refused by the pattern alone. */
  lemma RefusesLowerCase(timeStamp: DateTime)
    ensures Validate(HourlyShareRateModel(1, timeStamp, Some("cbi"), 1.0), 10.0) == [RegularExpressionError("Symbol", SymbolMessage)]
  {
    var s := "cbi";
    assert !('A' <= s[0] <= 'Z') && !IsWhiteSpace(s[0]);
  }

  /** Digits are refused by the pattern alone. */
  lemma RefusesDigits(timeStamp: DateTime)
    ensures Validate(HourlyShareRateModel(1, timeStamp, Some("CB1"), 1.0), 10.0) == [RegularExpressionError("Symbol", SymbolMessage)]
  {
    var s := "CB1";
    assert s[2] == '1';
    assert !IsWhiteSpace(s[0]);
  }

  /** A null symbol and a negative rate are each reported; the pattern lets the null through. */
  lemma RefusesMissingSymbolAndNegativeRate(timeStamp: DateTime)
    ensures Validate(HourlyShareRateModel(1, timeStamp, None, -1.0), 10.0) == [RequiredError("Symbol"), RangeError("Rate")]
  {
  }

  /** Neither the Id nor the timestamp takes part in validation. */
  lemma IdAndTimeStampIgnored(model: HourlyShareRateModel, id: int, timeStamp: DateTime, maxDecimalValue: real)
    ensures Validate(model.(Id := id, TimeStamp := timeStamp), maxDecimalValue) == Validate(model, maxDecimalValue)
  {
  }
}
