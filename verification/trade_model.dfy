/**
 * The request body for a trade, and the checks its attributes make: the
 * symbol is required and the action must be exactly BUY or SELL.
 */
module TradeModels {
  import opened Wrappers
  import opened DataAnnotations
  import StringRange

  /** NoOfShares and PortfolioId are value types: [Required] always holds for them. */
  datatype TradeModel = TradeModel(Symbol: Option<string>, NoOfShares: int, PortfolioId: int, Action: Option<string>)

  const AllowedActions: seq<Option<string>> := [Some("BUY"), Some("SELL")]

  /** The ErrorMessage declared on the Action attribute. */
  const ActionMessage := "Allowed values are BUY or SELL"

  /** The errors of model validation, attribute by attribute. */
  function Validate(model: TradeModel): (errors: seq<ValidationError>)
    ensures errors == [] <==> Required(model.Symbol) && (model.Action == Some("BUY") || model.Action == Some("SELL"))
    ensures RequiredError("Symbol") in errors <==> !Required(model.Symbol)
    ensures AttributeError("Action", StringRange.NotFoundMessage) in errors <==> model.Action !in AllowedActions
    ensures AttributeError("Action", ActionMessage) !in errors
  {
    var action := GetValidationResult(StringRange.IsValid(Some(AllowedActions), model.Action), ActionMessage);
    (if Required(model.Symbol) then [] else [RequiredError("Symbol")])
    + (if action.Success? then [] else [AttributeError("Action", action.ErrorMessage)])
  }

  /** Only the exact upper-case words are actions; null and other spellings are refused. */
  lemma ActionExamples(symbol: Option<string>)
    requires Required(symbol)
    ensures Validate(TradeModel(symbol, 10, 1, Some("SELL"))) == []
    ensures Validate(TradeModel(symbol, 10, 1, Some("buy"))) == [AttributeError("Action", StringRange.NotFoundMessage)]
    ensures Validate(TradeModel(symbol, 10, 1, None)) == [AttributeError("Action", StringRange.NotFoundMessage)]
  {
    assert Some("buy") !in AllowedActions by { assert "buy"[0] != "BUY"[0] && "buy"[0] != "SELL"[0]; }
  }

  /** The number of shares and the portfolio never take part in validation. */
  lemma SharesAndPortfolioIgnored(model: TradeModel, noOfShares: int, portfolioId: int)
    ensures Validate(model.(NoOfShares := noOfShares, PortfolioId := portfolioId)) == Validate(model)
  {
  }
}
