/** The FluentValidation building blocks the validators use, in the library's
    default (continue) cascade mode: every rule of a chain runs, and each
    failing rule contributes one (PropertyName, ErrorMessage) failure, in
    declaration order. */
module Validation {
  import opened Common

  /** One rule: no failure when ok holds, else exactly its own failure. */
  function Check(ok: bool, property: string, message: string): (r: seq<ValidationFailure>)
    ensures ok <==> r == []
    ensures !ok ==> r == [ValidationFailure(property, message)]
  {
    if ok then [] else [ValidationFailure(property, message)]
  }

  /** NotEmpty().WithMessage(required).MaximumLength(50).WithMessage(tooLong)
      on a name property. */
  function NameFailures(value: string, property: string, required: string, tooLong: string): (r: seq<ValidationFailure>)
    ensures required != tooLong ==> (ValidationFailure(property, required) in r <==> IsBlank(value))
    ensures required != tooLong ==> (ValidationFailure(property, tooLong) in r <==> |value| > 50)
    ensures r == [] <==> !IsBlank(value) && |value| <= 50
    ensures forall f :: f in r ==> f.propertyName == property
  {
    Check(!IsBlank(value), property, required) + Check(|value| <= 50, property, tooLong)
  }

  /** Regex.IsMatch(s, "^[0-9]*$") as .NET evaluates it: without
      RegexOptions.Multiline, `$` matches at the end of the input and also
      just before a final newline. */
  predicate DigitsPatternMatches(s: string) {
    || AllDigits(s)
    || (|s| > 0 && s[|s| - 1] == '\n' && AllDigits(s[..|s| - 1]))
  }

  const CnpProperty: string := "PersonalNumericCode"
  const CnpRequired: string := "Personal numeric code is required"
  const CnpLength: string := "Personal numeric code should have 13 digits"
  const CnpDigits: string := "Personal numeric code must contain only digits"

  /** The three format rules on PersonalNumericCode as written: NotEmpty,
      Length(13), Matches("^[0-9]*$"). */
  function CnpFormatFailuresAsWritten(cnp: string): (r: seq<ValidationFailure>)
    ensures r == [] <==> !IsBlank(cnp) && |cnp| == 13 && DigitsPatternMatches(cnp)
  {
    Check(!IsBlank(cnp), CnpProperty, CnpRequired)
    + Check(|cnp| == 13, CnpProperty, CnpLength)
    + Check(DigitsPatternMatches(cnp), CnpProperty, CnpDigits)
  }

  /** The code as written accepts twelve digits followed by a newline: the
      pattern's `$` matches before the final "\n", and the newline makes up
      the thirteenth character. */
  lemma CnpTrailingNewlineAccepted()
    ensures CnpFormatFailuresAsWritten("123456789012\n") == []
    ensures !AllDigits("123456789012\n")
  {
    var s := "123456789012\n";
    assert s[..|s| - 1] == "123456789012";
    assert !IsWhiteSpace(s[0]);
    assert !IsDigit(s[12]);
  }

  /** The format rules as intended: "only digits" anchored at the very end of
      the input (the pattern "^[0-9]*\z"). */
  function CnpFormatFailures(cnp: string): (r: seq<ValidationFailure>)
    ensures ValidationFailure(CnpProperty, CnpRequired) in r <==> IsBlank(cnp)
    ensures ValidationFailure(CnpProperty, CnpLength) in r <==> |cnp| != 13
    ensures ValidationFailure(CnpProperty, CnpDigits) in r <==> !AllDigits(cnp)
    ensures forall f :: f in r ==> f.propertyName == CnpProperty
    ensures forall f :: f in r ==> f.errorMessage == CnpRequired || f.errorMessage == CnpLength || f.errorMessage == CnpDigits
  {
    Check(!IsBlank(cnp), CnpProperty, CnpRequired)
    + Check(|cnp| == 13, CnpProperty, CnpLength)
    + Check(AllDigits(cnp), CnpProperty, CnpDigits)
  }

  /** With the corrected pattern a code passes the format rules exactly when
      it is thirteen ASCII digits; the NotEmpty rule is then never the only
      one to fail. */
  lemma CnpFormatExact(cnp: string)
    ensures CnpFormatFailures(cnp) == [] <==> |cnp| == 13 && AllDigits(cnp)
    ensures IsBlank(cnp) ==> CnpFormatFailures(cnp) != [ValidationFailure(CnpProperty, CnpRequired)]
  {
    if |cnp| == 13 && AllDigits(cnp) {
      assert !IsWhiteSpace(cnp[0]);
    }
    if IsBlank(cnp) && |cnp| > 0 {
      assert !IsDigit(cnp[0]);
    }
  }
}
