/**
 * The framework validation attributes the API models use: [Required],
 * [RegularExpression("^[A-Z]{3}$")], [Range] and the rule by which a
 * validation attribute's own ErrorMessage is applied to a failure. A string
 * property's value is an Option: None is a null reference.
 */
module DataAnnotations {
  import opened Wrappers

  /** The outcome of a validation attribute: Success, or a failure with its message. */
  datatype ValidationResult = Success | Failure(ErrorMessage: string)

  /** A failed constraint on a model property, in the order the attributes are declared. */
  datatype ValidationError =
    | RequiredError(Field: string)
    | RegularExpressionError(Field: string, Message: string)
    | RangeError(Field: string)
    | AttributeError(Field: string, Message: string)

  /** The characters Char.IsWhiteSpace accepts, which String.Trim removes. */
  predicate IsWhiteSpace(c: char) {
    || ('\U{0009}' <= c <= '\U{000D}') || c == '\U{0020}' || c == '\U{0085}' || c == '\U{00A0}'
    || c == '\U{1680}' || ('\U{2000}' <= c <= '\U{200A}') || c == '\U{2028}' || c == '\U{2029}'
    || c == '\U{202F}' || c == '\U{205F}' || c == '\U{3000}'
  }

  /** The number of white-space characters at the start of `s`. */
  function LeadingWhiteSpace(s: string): (n: nat)
    ensures n <= |s|
    ensures forall k :: 0 <= k < n ==> IsWhiteSpace(s[k])
    ensures n < |s| ==> !IsWhiteSpace(s[n])
  {
    if s == [] || !IsWhiteSpace(s[0]) then 0
    else 1 + LeadingWhiteSpace(s[1..])
  }

  /** The number of white-space characters at the end of `s`. */
  function TrailingWhiteSpace(s: string): (n: nat)
    ensures n <= |s|
    ensures forall k :: |s| - n <= k < |s| ==> IsWhiteSpace(s[k])
    ensures n < |s| ==> !IsWhiteSpace(s[|s| - 1 - n])
  {
    if s == [] || !IsWhiteSpace(s[|s| - 1]) then 0
    else 1 + TrailingWhiteSpace(s[..|s| - 1])
  }

  /** Trim(): `s` without its leading and trailing white space. */
  function Trim(s: string): (t: string)
    ensures t == [] <==> forall i :: 0 <= i < |s| ==> IsWhiteSpace(s[i])
    ensures t != [] ==> !IsWhiteSpace(t[0]) && !IsWhiteSpace(t[|t| - 1])
  {
    var rest := s[LeadingWhiteSpace(s)..];
    rest[..|rest| - TrailingWhiteSpace(rest)]
  }

  /**
   * RequiredAttribute.IsValid on a string with AllowEmptyStrings off:
   * a null string fails, and so does one that trims to nothing.
   */
  predicate Required(value: Option<string>) {
    value.Some? && |Trim(value.value)| != 0
  }

  lemma RequiredMeansNonBlank(value: Option<string>)
    ensures Required(value) <==> value.Some? && exists i :: 0 <= i < |value.value| && !IsWhiteSpace(value.value[i])
  {
  }

  /** A full match of `^[A-Z]{3}$`: three characters, each an upper-case ASCII letter. */
  predicate IsThreeCapitals(s: string) {
    |s| == 3 && forall i :: 0 <= i < |s| ==> 'A' <= s[i] <= 'Z'
  }

  /**
   * RegularExpressionAttribute.IsValid for `^[A-Z]{3}$`: a null or empty
   * string passes (it is left to [Required]); any other string must be
   * matched in full, from its first character to its last.
   */
  predicate ThreeCapitalsPattern(value: Option<string>) {
    value.None? || value.value == [] || IsThreeCapitals(value.value)
  }

  /** RangeAttribute on a decimal: both bounds are inclusive. */
  predicate InRange(value: real, minimum: real, maximum: real) {
    minimum <= value <= maximum
  }

  /**
   * ValidationAttribute.GetValidationResult: a failure that carries no
   * message of its own is given the attribute's ErrorMessage.
   */
  function GetValidationResult(result: ValidationResult, errorMessage: string): (r: ValidationResult)
    ensures r.Success? <==> result.Success?
    ensures r.Failure? ==> r.ErrorMessage == (if result.ErrorMessage == "" then errorMessage else result.ErrorMessage)
  {
    match result
    case Success => Success
    case Failure(message) => if message == "" then Failure(errorMessage) else result
  }
}
