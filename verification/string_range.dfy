/**
 * [StringRange(AllowedValues = ...)]: a property is valid when its string
 * form is one of the allowed values, compared exactly.
 */
module StringRange {
  import opened Wrappers
  import opened DataAnnotations
  import Enumerable

  /** The message of every StringRange failure. */
  const NotFoundMessage := "Allowed values were not found."

  /**
   * IsValid: `AllowedValues?.Contains(value?.ToString()) == true`. A null
   * AllowedValues makes the test null, so not true; a null value is looked
   * up as null.
   */
  function IsValid(allowedValues: Option<seq<Option<string>>>, value: Option<string>): (r: ValidationResult)
    ensures r.Success? <==> allowedValues.Some? && value in allowedValues.value
    ensures r.Failure? ==> r.ErrorMessage == NotFoundMessage
  {
    if allowedValues.Some? && Enumerable.Contains(allowedValues.value, value) then
      Success
    else
      Failure(NotFoundMessage)
  }

  /** Without allowed values nothing is valid, not even null. */
  lemma NoAllowedValuesRejectsAll(value: Option<string>)
    ensures IsValid(None, value) == Failure(NotFoundMessage)
  {
  }

  /** A null value is valid only when null is itself one of the allowed values. */
  lemma NullNeedsNullAllowed(allowedValues: seq<Option<string>>)
    ensures IsValid(Some(allowedValues), None).Success? <==> None in allowedValues
  {
  }

  /**
   * The attribute's own failure message always wins in GetValidationResult:
   * an ErrorMessage given on the attribute is never the message it reports
   * (model validation without data-annotation localization).
   */
  lemma ErrorMessageIsNeverApplied(allowedValues: Option<seq<Option<string>>>, value: Option<string>, errorMessage: string)
    ensures var r := GetValidationResult(IsValid(allowedValues, value), errorMessage);
      r.Failure? ==> r.ErrorMessage == NotFoundMessage
  {
  }
}
