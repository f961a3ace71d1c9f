/** The doctor command handlers: CreateDoctorCommandHandler and
    UpdateDoctorCommandHandler as methods over the store. */
module DoctorCommands {
  import opened Common
  import opened Entities
  import opened DoctorRepository
  import opened ClinicStore
  import opened DoctorValidators

  const UpdateNotAdmin: string := "Only administrators are authorized to modify doctor accounts."

  /** The row CreateDoctor inserts: the request's names and specialization,
      no key yet and no linked user. */
  function NewDoctorRow(cmd: CreateDoctorCommand): (r: Doctor)
    ensures r.id == EmptyGuid && r.userId.None?
    ensures r.firstName == cmd.firstName && r.lastName == cmd.lastName
    ensures r.specialization == cmd.specialization
  {
    Doctor(EmptyGuid, cmd.firstName, cmd.lastName, cmd.specialization, None)
  }

  /** CreateDoctorCommandHandler.Handle: no role check; the doctor is inserted
      under a key no doctor holds, and a lookup by the returned key finds
      exactly that row. */
  method CreateDoctor(db: ClinicDb, cmd: CreateDoctorCommand) returns (id: Guid)
    requires db.Valid()
    modifies db
    ensures db.Valid()
    ensures db.patients == old(db.patients) && db.appointments == old(db.appointments)
    ensures id != EmptyGuid && FindDoctor(old(db.doctors), id).None?
    ensures db.doctors == old(db.doctors) + [NewDoctorRow(cmd).(id := id)]
    ensures FindDoctor(db.doctors, id) == Some(NewDoctorRow(cmd).(id := id))
  {
    var key := FreshKey(db.doctors, DoctorKey);
    assert FindDoctor(db.doctors, key).None? by {
      forall i | 0 <= i < |db.doctors|
        ensures db.doctors[i].id != key
      {
        assert DoctorKey(db.doctors[i]) < key;
      }
    }
    var added := db.AddDoctor(NewDoctorRow(cmd));
    assert added.Ok?;
    id := added.value.id;
    FindDoctorExact(db.doctors, |db.doctors| - 1);
  }

  /** What the update takes from the request: the key it looks up and the
      names and specialization it writes (UpdateAsync copies no other column). */
  function UpdatedDoctor(cmd: UpdateDoctorCommand): (r: Doctor)
    ensures r.id == cmd.id && r.firstName == cmd.firstName && r.lastName == cmd.lastName
    ensures r.specialization == cmd.specialization
  {
    Doctor(cmd.id, cmd.firstName, cmd.lastName, cmd.specialization, None)
  }

  /** UpdateDoctorCommandHandler.Handle: admins only, then the doctor must
      exist; names and specialization are overwritten and nothing else. */
  method UpdateDoctor(db: ClinicDb, caller: Principal, cmd: UpdateDoctorCommand) returns (r: Result<()>)
    requires db.Valid()
    modifies db
    ensures db.Valid()
    ensures db.patients == old(db.patients) && db.appointments == old(db.appointments)
    ensures !IsAdmin(caller) ==> r == Err(Unauthorized(UpdateNotAdmin))
    ensures IsAdmin(caller) && FindDoctor(old(db.doctors), cmd.id).None? ==>
              r == Err(KeyNotFound("Doctor with ID " + KeyText(cmd.id) + " not found."))
    ensures r.Ok? <==> IsAdmin(caller) && FindDoctor(old(db.doctors), cmd.id).Some?
    ensures r.Err? ==> db.doctors == old(db.doctors)
    ensures r.Ok? ==> db.doctors == DoctorsUpdated(old(db.doctors), UpdatedDoctor(cmd))
  {
    if !IsAdmin(caller) {
      return Err(Unauthorized(UpdateNotAdmin));
    }
    var existing := FindDoctor(db.doctors, cmd.id);
    if existing.None? {
      return Err(KeyNotFound("Doctor with ID " + KeyText(cmd.id) + " not found."));
    }
    var row := existing.value.(firstName := cmd.firstName, lastName := cmd.lastName,
                               specialization := cmd.specialization);
    assert DoctorsUpdated(db.doctors, row) == DoctorsUpdated(db.doctors, UpdatedDoctor(cmd));
    var updated := db.UpdateDoctor(row);
    assert updated.Ok?;
    r := Ok(());
  }
}
