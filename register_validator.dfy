/** RegisterUserCommandValidator. Two email checks belong to code outside
    the model and are passed in as flags: the library's EmailAddress() test,
    and whether the identity store already holds the address. The patient
    table is passed in for the CNP uniqueness rule. */
module RegisterValidator {
  import opened Common
  import opened Entities
  import opened PatientRepository
  import opened Validation
  import opened PatientValidators

  datatype RegisterUserCommand = RegisterUserCommand(
    email: string, password: string, firstName: string, lastName: string, personalNumericCode: string)

  const EmailRequired := ValidationFailure("Email", "Email is required")
  const EmailMalformed := ValidationFailure("Email", "Invalid email format")
  const EmailTooLong := ValidationFailure("Email", "Email cannot exceed 100 characters")
  const EmailInUse := ValidationFailure("Email", "A user with this email address already exists.")
  const PasswordRequired := ValidationFailure("Password", "Password is required")
  const PasswordTooShort := ValidationFailure("Password", "Password must be at least 4 characters long")

  /** The Email chain: NotEmpty, EmailAddress, MaximumLength(100), and the
      identity-store lookup. */
  function EmailFailures(email: string, wellFormed: bool, emailInUse: bool): (r: seq<ValidationFailure>)
    ensures EmailRequired in r <==> IsBlank(email)
    ensures EmailMalformed in r <==> !wellFormed
    ensures EmailTooLong in r <==> |email| > 100
    ensures EmailInUse in r <==> emailInUse
    ensures r == [] <==> !IsBlank(email) && wellFormed && |email| <= 100 && !emailInUse
    ensures forall f :: f in r ==> f.propertyName == "Email"
  {
    Check(!IsBlank(email), EmailRequired.propertyName, EmailRequired.errorMessage)
    + Check(wellFormed, EmailMalformed.propertyName, EmailMalformed.errorMessage)
    + Check(|email| <= 100, EmailTooLong.propertyName, EmailTooLong.errorMessage)
    + Check(!emailInUse, EmailInUse.propertyName, EmailInUse.errorMessage)
  }

  /** The Password chain: NotEmpty, MinimumLength(4). */
  function PasswordFailures(password: string): (r: seq<ValidationFailure>)
    ensures PasswordRequired in r <==> IsBlank(password)
    ensures PasswordTooShort in r <==> |password| < 4
    ensures r == [] <==> !IsBlank(password) && |password| >= 4
    ensures forall f :: f in r ==> f.propertyName == "Password"
  {
    Check(!IsBlank(password), PasswordRequired.propertyName, PasswordRequired.errorMessage)
    + Check(|password| >= 4, PasswordTooShort.propertyName, PasswordTooShort.errorMessage)
  }

  /** The whole validator: email, password, the patient name chains, the CNP
      format rules and the CNP uniqueness rule, in declaration order. */
  function RegisterFailures(t: seq<Patient>, emailWellFormed: bool, emailInUse: bool, cmd: RegisterUserCommand): (r: seq<ValidationFailure>)
    ensures r == [] <==> && EmailFailures(cmd.email, emailWellFormed, emailInUse) == []
                         && PasswordFailures(cmd.password) == []
                         && PersonNameFailures(cmd.firstName, cmd.lastName) == []
                         && |cmd.personalNumericCode| == 13 && AllDigits(cmd.personalNumericCode)
                         && PatientByCnp(t, cmd.personalNumericCode).None?
    ensures CnpTaken in r <==> PatientByCnp(t, cmd.personalNumericCode).Some?
  {
    var emailPart := EmailFailures(cmd.email, emailWellFormed, emailInUse);
    var passwordPart := PasswordFailures(cmd.password);
    var patientPart := CreatePatientFailures(t, CreatePatientCommand(cmd.firstName, cmd.lastName, cmd.personalNumericCode));
    assert CnpTaken !in emailPart + passwordPart by {
      assert |CnpProperty| != |"Email"| && |CnpProperty| != |"Password"|;
    }
    emailPart + passwordPart + patientPart
  }

  /** A registration the validator accepts would also pass the patient-create
      validator, and the patient it carries joins the table without breaking
      CNP uniqueness. */
  lemma AcceptedRegistrationIsValidPatient(t: seq<Patient>, emailWellFormed: bool, emailInUse: bool,
                                           cmd: RegisterUserCommand, id: Guid)
    requires RegisterFailures(t, emailWellFormed, emailInUse, cmd) == []
    requires CnpUnique(t)
    ensures CreatePatientFailures(t, CreatePatientCommand(cmd.firstName, cmd.lastName, cmd.personalNumericCode)) == []
    ensures CnpUnique(t + [Patient(id, cmd.firstName, cmd.lastName, cmd.personalNumericCode, None)])
  {
    AppendKeepsCnpUnique(t, Patient(id, cmd.firstName, cmd.lastName, cmd.personalNumericCode, None));
  }
}
