/** The patient commands and the validators that run before their handlers.
    The uniqueness rules query the patient table, which is passed in. */
module PatientValidators {
  import opened Common
  import opened Entities
  import opened PatientRepository
  import opened Validation

  datatype CreatePatientCommand = CreatePatientCommand(
    firstName: string, lastName: string, personalNumericCode: string)

  datatype UpdatePatientCommand = UpdatePatientCommand(
    id: Guid, firstName: string, lastName: string, personalNumericCode: string)

  const FirstNameRequired: string := "First name is required"
  const FirstNameTooLong: string := "First name cannot exceed 50 characters"
  const LastNameRequired: string := "LastName is required"
  const LastNameTooLong: string := "LastName cannot exceed 50 characters"
  const CnpTaken := ValidationFailure(CnpProperty, "A patient with the specified personal numeric code already exists")
  const CnpUsedByAnother := ValidationFailure(CnpProperty, "This CNP is already used by another patient.")

  /** The FirstName and LastName chains shared by the patient validators and
      the registration validator. */
  function PersonNameFailures(firstName: string, lastName: string): (r: seq<ValidationFailure>)
    ensures ValidationFailure("FirstName", FirstNameRequired) in r <==> IsBlank(firstName)
    ensures ValidationFailure("FirstName", FirstNameTooLong) in r <==> |firstName| > 50
    ensures ValidationFailure("LastName", LastNameRequired) in r <==> IsBlank(lastName)
    ensures ValidationFailure("LastName", LastNameTooLong) in r <==> |lastName| > 50
    ensures r == [] <==> !IsBlank(firstName) && |firstName| <= 50 && !IsBlank(lastName) && |lastName| <= 50
    ensures forall f :: f in r ==> f.propertyName != CnpProperty
  {
    NameFailures(firstName, "FirstName", FirstNameRequired, FirstNameTooLong)
    + NameFailures(lastName, "LastName", LastNameRequired, LastNameTooLong)
  }

  /** CreatePatientCommandValidator: the name chains, the CNP format rules,
      and MustAsync "no patient holds this code". */
  function CreatePatientFailures(t: seq<Patient>, cmd: CreatePatientCommand): (r: seq<ValidationFailure>)
    ensures CnpTaken in r <==> PatientByCnp(t, cmd.personalNumericCode).Some?
    ensures r == [] <==> && PersonNameFailures(cmd.firstName, cmd.lastName) == []
                         && |cmd.personalNumericCode| == 13 && AllDigits(cmd.personalNumericCode)
                         && forall p :: p in t ==> p.personalNumericCode != cmd.personalNumericCode
  {
    CnpFormatExact(cmd.personalNumericCode);
    var names := PersonNameFailures(cmd.firstName, cmd.lastName);
    var format := CnpFormatFailures(cmd.personalNumericCode);
    var unique := Check(PatientByCnp(t, cmd.personalNumericCode).None?, CnpTaken.propertyName, CnpTaken.errorMessage);
    assert CnpTaken !in format by {
      assert |CnpTaken.errorMessage| != |CnpRequired| && |CnpTaken.errorMessage| != |CnpLength|;
      assert |CnpTaken.errorMessage| != |CnpDigits|;
    }
    assert CnpTaken in unique <==> PatientByCnp(t, cmd.personalNumericCode).Some?;
    names + format + unique
  }

  /** The update validator's uniqueness rule: the code is free, or it is held
      by the patient being updated. */
  predicate CnpFreeFor(t: seq<Patient>, id: Guid, cnp: string) {
    var holder := PatientByCnp(t, cnp);
    holder.None? || holder.value.id == id
  }

  /** UpdatePatientCommandValidator: as on create, except that the code may
      be the one the patient already holds. */
  function UpdatePatientFailures(t: seq<Patient>, cmd: UpdatePatientCommand): (r: seq<ValidationFailure>)
    ensures CnpUsedByAnother in r <==> !CnpFreeFor(t, cmd.id, cmd.personalNumericCode)
    ensures r == [] <==> && PersonNameFailures(cmd.firstName, cmd.lastName) == []
                         && |cmd.personalNumericCode| == 13 && AllDigits(cmd.personalNumericCode)
                         && CnpFreeFor(t, cmd.id, cmd.personalNumericCode)
  {
    CnpFormatExact(cmd.personalNumericCode);
    var names := PersonNameFailures(cmd.firstName, cmd.lastName);
    var format := CnpFormatFailures(cmd.personalNumericCode);
    var unique := Check(CnpFreeFor(t, cmd.id, cmd.personalNumericCode), CnpUsedByAnother.propertyName, CnpUsedByAnother.errorMessage);
    assert CnpUsedByAnother !in format by {
      assert |CnpUsedByAnother.errorMessage| != |CnpRequired| && |CnpUsedByAnother.errorMessage| != |CnpLength|;
      assert |CnpUsedByAnother.errorMessage| != |CnpDigits|;
    }
    assert CnpUsedByAnother in unique <==> !CnpFreeFor(t, cmd.id, cmd.personalNumericCode);
    names + format + unique
  }

  /** While codes are unique, the update rule refuses a code exactly when some
      other patient holds it. */
  lemma CnpFreeForExact(t: seq<Patient>, id: Guid, cnp: string)
    requires CnpUnique(t)
    ensures CnpFreeFor(t, id, cnp) <==> forall p :: p in t && p.personalNumericCode == cnp ==> p.id == id
  {
    var holder := PatientByCnp(t, cnp);
    if holder.Some? {
      forall p | p in t && p.personalNumericCode == cnp
        ensures p == holder.value
      {
        PatientByCnpExact(t, p);
      }
    }
  }

  /** Re-submitting a patient's own stored code never trips the update rule. */
  lemma OwnCnpIsFree(t: seq<Patient>, p: Patient)
    requires CnpUnique(t) && p in t
    ensures CnpFreeFor(t, p.id, p.personalNumericCode)
  {
    PatientByCnpExact(t, p);
  }
}
