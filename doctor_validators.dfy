/** The doctor commands and their validators. Neither validator consults the
    store. */
module DoctorValidators {
  import opened Common
  import opened Validation

  /** Email and Password are carried by the request but never read. */
  datatype CreateDoctorCommand = CreateDoctorCommand(
    firstName: string, lastName: string, specialization: string, email: string, password: string)

  datatype UpdateDoctorCommand = UpdateDoctorCommand(
    id: Guid, firstName: string, lastName: string, specialization: string)

  const SpecializationRequired := ValidationFailure("Specialization", "Specialization is required")
  const SpecializationTooShort := ValidationFailure("Specialization", "Specialization must have at least 3 characters")

  /** NotEmpty().MinimumLength(3) on Specialization. */
  function SpecializationFailures(specialization: string): (r: seq<ValidationFailure>)
    ensures SpecializationRequired in r <==> IsBlank(specialization)
    ensures SpecializationTooShort in r <==> |specialization| < 3
    ensures r == [] <==> !IsBlank(specialization) && |specialization| >= 3
    ensures forall f :: f in r ==> f.propertyName == "Specialization"
  {
    Check(!IsBlank(specialization), SpecializationRequired.propertyName, SpecializationRequired.errorMessage)
    + Check(|specialization| >= 3, SpecializationTooShort.propertyName, SpecializationTooShort.errorMessage)
  }

  /** The three chains both doctor validators declare: NotEmpty and
      MaximumLength(50) on each name, then the specialization rules. */
  function DoctorFieldFailures(firstName: string, lastName: string, specialization: string): (r: seq<ValidationFailure>)
    ensures ValidationFailure("FirstName", "FirstName is required") in r <==> IsBlank(firstName)
    ensures ValidationFailure("FirstName", "FirstName cannot exceed 50 characters") in r <==> |firstName| > 50
    ensures ValidationFailure("LastName", "LastName is required") in r <==> IsBlank(lastName)
    ensures ValidationFailure("LastName", "LastName cannot exceed 50 characters") in r <==> |lastName| > 50
    ensures SpecializationRequired in r <==> IsBlank(specialization)
    ensures SpecializationTooShort in r <==> |specialization| < 3
    ensures r == [] <==> && !IsBlank(firstName) && |firstName| <= 50
                         && !IsBlank(lastName) && |lastName| <= 50
                         && !IsBlank(specialization) && |specialization| >= 3
  {
    var first := NameFailures(firstName, "FirstName", "FirstName is required", "FirstName cannot exceed 50 characters");
    var last := NameFailures(lastName, "LastName", "LastName is required", "LastName cannot exceed 50 characters");
    var spec := SpecializationFailures(specialization);
    assert "FirstName" != "LastName" && "FirstName" != "Specialization" && "LastName" != "Specialization" by {
      assert "FirstName"[0] != "LastName"[0] && "FirstName"[0] != "Specialization"[0];
      assert "LastName"[0] != "Specialization"[0];
    }
    first + last + spec
  }

  /** CreateDoctorCommandValidator. */
  function CreateDoctorFailures(cmd: CreateDoctorCommand): (r: seq<ValidationFailure>)
    ensures r == [] <==> && !IsBlank(cmd.firstName) && |cmd.firstName| <= 50
                         && !IsBlank(cmd.lastName) && |cmd.lastName| <= 50
                         && !IsBlank(cmd.specialization) && |cmd.specialization| >= 3
    ensures SpecializationRequired in r <==> IsBlank(cmd.specialization)
    ensures SpecializationTooShort in r <==> |cmd.specialization| < 3
    ensures ValidationFailure("FirstName", "FirstName cannot exceed 50 characters") in r <==> |cmd.firstName| > 50
    ensures ValidationFailure("LastName", "LastName cannot exceed 50 characters") in r <==> |cmd.lastName| > 50
  {
    DoctorFieldFailures(cmd.firstName, cmd.lastName, cmd.specialization)
  }

  /** UpdateDoctorCommandValidator. */
  function UpdateDoctorFailures(cmd: UpdateDoctorCommand): (r: seq<ValidationFailure>)
    ensures r == [] <==> && !IsBlank(cmd.firstName) && |cmd.firstName| <= 50
                         && !IsBlank(cmd.lastName) && |cmd.lastName| <= 50
                         && !IsBlank(cmd.specialization) && |cmd.specialization| >= 3
    ensures SpecializationRequired in r <==> IsBlank(cmd.specialization)
    ensures SpecializationTooShort in r <==> |cmd.specialization| < 3
    ensures ValidationFailure("FirstName", "FirstName cannot exceed 50 characters") in r <==> |cmd.firstName| > 50
    ensures ValidationFailure("LastName", "LastName cannot exceed 50 characters") in r <==> |cmd.lastName| > 50
  {
    DoctorFieldFailures(cmd.firstName, cmd.lastName, cmd.specialization)
  }

  /** The two validators agree: an update carrying the same names and
      specialization as a create is judged exactly as the create is, and the
      create's email and password play no part. */
  lemma DoctorValidatorsAgree(c: CreateDoctorCommand, u: UpdateDoctorCommand)
    requires c.firstName == u.firstName && c.lastName == u.lastName && c.specialization == u.specialization
    ensures CreateDoctorFailures(c) == UpdateDoctorFailures(u)
    ensures CreateDoctorFailures(c) == CreateDoctorFailures(c.(email := "", password := ""))
  {
  }
}
