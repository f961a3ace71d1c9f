/** The patient command handlers: CreatePatientCommandHandler and
    UpdatePatientCommandHandler as methods over the store, with the
    CNP-uniqueness invariant each of them keeps. */
module PatientCommands {
  import opened Common
  import opened Entities
  import opened PatientRepository
  import opened ClinicStore
  import opened PatientValidators

  const CreateNotAdmin: string := "Only administrators are authorized to create patient profiles."
  const UpdateNotAllowed: string := "You are not authorized to modify this patient profile."

  /** The conflict message both patient handlers raise, naming the code. */
  function CnpExists(cnp: string): string {
    "A patient with CNP " + cnp + " already exists."
  }

  /** The row CreatePatient inserts: no key yet (the store assigns one) and
      no linked user. */
  function NewPatientRow(cmd: CreatePatientCommand): (r: Patient)
    ensures r.id == EmptyGuid && r.userId.None?
    ensures r.firstName == cmd.firstName && r.lastName == cmd.lastName
    ensures r.personalNumericCode == cmd.personalNumericCode
  {
    Patient(EmptyGuid, cmd.firstName, cmd.lastName, cmd.personalNumericCode, None)
  }

  /** CreatePatientCommandHandler.Handle: admins only; a code already on file
      is refused; otherwise the patient is inserted under a new key, which is
      returned. */
  method CreatePatient(db: ClinicDb, caller: Principal, cmd: CreatePatientCommand) returns (r: Result<Guid>)
    requires db.Valid()
    modifies db
    ensures db.Valid()
    ensures db.doctors == old(db.doctors) && db.appointments == old(db.appointments)
    ensures !IsAdmin(caller) ==> r == Err(Unauthorized(CreateNotAdmin))
    ensures IsAdmin(caller) && PatientByCnp(old(db.patients), cmd.personalNumericCode).Some? ==>
              r == Err(InvalidOperation(CnpExists(cmd.personalNumericCode)))
    ensures r.Ok? <==> IsAdmin(caller) && PatientByCnp(old(db.patients), cmd.personalNumericCode).None?
    ensures r.Ok? ==> && r.value != EmptyGuid
                      && FindPatient(old(db.patients), r.value).None?
                      && db.patients == old(db.patients) + [NewPatientRow(cmd).(id := r.value)]
                      && FindPatient(db.patients, r.value) == Some(NewPatientRow(cmd).(id := r.value))
    ensures r.Err? ==> db.patients == old(db.patients)
    ensures CnpUnique(old(db.patients)) ==> CnpUnique(db.patients)
  {
    if !IsAdmin(caller) {
      return Err(Unauthorized(CreateNotAdmin));
    }
    if PatientByCnp(db.patients, cmd.personalNumericCode).Some? {
      return Err(InvalidOperation(CnpExists(cmd.personalNumericCode)));
    }
    var row := NewPatientRow(cmd);
    var key := FreshKey(db.patients, PatientKey);
    assert FindPatient(db.patients, key).None? by {
      forall i | 0 <= i < |db.patients|
        ensures db.patients[i].id != key
      {
        assert PatientKey(db.patients[i]) < key;
      }
    }
    if CnpUnique(db.patients) {
      AppendKeepsCnpUnique(db.patients, row.(id := key));
    }
    var added := db.AddPatient(row);
    assert added.Ok?;
    r := Ok(added.value.id);
    FindPatientExact(db.patients, |db.patients| - 1);
  }

  /** The caller owns the profile: the row is linked to a user and that user
      is the caller. */
  predicate Owns(caller: Principal, p: Patient) {
    p.userId.Some? && p.userId == caller.userId
  }

  /** What the update takes from the request: the key it looks up and the
      names and code it writes (UpdateAsync copies no other column). */
  function UpdatedPatient(cmd: UpdatePatientCommand): (r: Patient)
    ensures r.id == cmd.id && r.firstName == cmd.firstName && r.lastName == cmd.lastName
    ensures r.personalNumericCode == cmd.personalNumericCode
  {
    Patient(cmd.id, cmd.firstName, cmd.lastName, cmd.personalNumericCode, None)
  }

  /** UpdatePatientCommandHandler.Handle: the patient must exist; only an
      admin or the profile's owner may change it; a code held by another
      patient is refused; otherwise names and code are overwritten. */
  method UpdatePatient(db: ClinicDb, caller: Principal, cmd: UpdatePatientCommand) returns (r: Result<()>)
    requires db.Valid()
    modifies db
    ensures db.Valid()
    ensures db.doctors == old(db.doctors) && db.appointments == old(db.appointments)
    ensures var existing := FindPatient(old(db.patients), cmd.id);
            var allowed := existing.Some? && (IsAdmin(caller) || Owns(caller, existing.value));
            && (existing.None? ==> r == Err(KeyNotFound("Patient with ID " + KeyText(cmd.id) + " not found.")))
            && (existing.Some? && !allowed ==> r == Err(Unauthorized(UpdateNotAllowed)))
            && (allowed && !CnpFreeFor(old(db.patients), cmd.id, cmd.personalNumericCode) ==>
                  r == Err(InvalidOperation(CnpExists(cmd.personalNumericCode))))
            && (r.Ok? <==> allowed && CnpFreeFor(old(db.patients), cmd.id, cmd.personalNumericCode))
    ensures r.Err? ==> db.patients == old(db.patients)
    ensures r.Ok? ==> db.patients == PatientsUpdated(old(db.patients), UpdatedPatient(cmd))
    ensures CnpUnique(old(db.patients)) ==> CnpUnique(db.patients)
  {
    var existing := FindPatient(db.patients, cmd.id);
    if existing.None? {
      return Err(KeyNotFound("Patient with ID " + KeyText(cmd.id) + " not found."));
    }
    if !IsAdmin(caller) && !Owns(caller, existing.value) {
      return Err(Unauthorized(UpdateNotAllowed));
    }
    var sameCnp := PatientByCnp(db.patients, cmd.personalNumericCode);
    if sameCnp.Some? && sameCnp.value.id != existing.value.id {
      return Err(InvalidOperation(CnpExists(cmd.personalNumericCode)));
    }
    var row := existing.value.(firstName := cmd.firstName, lastName := cmd.lastName,
                               personalNumericCode := cmd.personalNumericCode);
    ghost var before := db.patients;
    assert PatientsUpdated(before, row) == PatientsUpdated(before, UpdatedPatient(cmd));
    var updated := db.UpdatePatient(row);
    assert updated.Ok?;
    if CnpUnique(before) {
      OverwriteKeepsCnpUnique(before, row);
    }
    r := Ok(());
  }
}
