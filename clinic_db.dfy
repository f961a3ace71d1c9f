/** The database behind the three repositories: three tables, the keys and
    foreign keys the schema enforces, and the repository operations that
    write (AddAsync, UpdateAsync, DeleteAsync of each repository) as methods
    that change the tables in place. */
module ClinicStore {
  import opened Common
  import opened Entities
  import opened AppointmentRepository
  import opened PatientRepository
  import opened DoctorRepository

  datatype Tables = Tables(doctors: seq<Doctor>, patients: seq<Patient>, appointments: seq<Appointment>)

  /** The text of the DbUpdateException that SaveChanges raises when it
      refuses an insert (duplicate key, foreign-key violation). The keyed
      ExecuteUpdate and ExecuteDelete refusals surface as the provider's own
      exception instead; both reach the caller as an unhandled failure. */
  const StoreFailure: string := "An error occurred while saving the entity changes. See the inner exception for details."

  /** Both foreign keys of an appointment name existing rows. */
  predicate ReferencesResolve(a: Appointment, doctors: seq<Doctor>, patients: seq<Patient>) {
    FindDoctor(doctors, a.doctorId).Some? && FindPatient(patients, a.patientId).Some?
  }

  /** What the schema guarantees of every committed state: primary keys are
      unique and set, and every appointment's doctor and patient exist. */
  predicate Consistent(t: Tables) {
    && UniqueKeys(t.doctors, DoctorKey)
    && UniqueKeys(t.patients, PatientKey)
    && UniqueKeys(t.appointments, AppointmentKey)
    && forall a :: a in t.appointments ==> ReferencesResolve(a, t.doctors, t.patients)
  }

  /** The rows left after deleting by key. */
  function AppointmentsWithout(t: seq<Appointment>, id: Guid): (r: seq<Appointment>)
    ensures forall a :: a in r <==> a in t && a.id != id
    ensures UniqueKeys(t, AppointmentKey) ==> UniqueKeys(r, AppointmentKey)
  {
    var keep := (a: Appointment) => a.id != id;
    if UniqueKeys(t, AppointmentKey) then FilterKeepsUniqueKeys(t, keep, AppointmentKey); Filter(t, keep)
    else Filter(t, keep)
  }

  /** The appointment rows the patient cascade leaves. */
  function AppointmentsNotOfPatient(t: seq<Appointment>, patientId: Guid): (r: seq<Appointment>)
    ensures forall a :: a in r <==> a in t && a.patientId != patientId
    ensures UniqueKeys(t, AppointmentKey) ==> UniqueKeys(r, AppointmentKey)
  {
    var keep := (a: Appointment) => a.patientId != patientId;
    if UniqueKeys(t, AppointmentKey) then FilterKeepsUniqueKeys(t, keep, AppointmentKey); Filter(t, keep)
    else Filter(t, keep)
  }

  function PatientsWithout(t: seq<Patient>, id: Guid): (r: seq<Patient>)
    ensures forall p :: p in r <==> p in t && p.id != id
    ensures UniqueKeys(t, PatientKey) ==> UniqueKeys(r, PatientKey)
  {
    var keep := (p: Patient) => p.id != id;
    if UniqueKeys(t, PatientKey) then FilterKeepsUniqueKeys(t, keep, PatientKey); Filter(t, keep)
    else Filter(t, keep)
  }

  function DoctorsWithout(t: seq<Doctor>, id: Guid): (r: seq<Doctor>)
    ensures forall d :: d in r <==> d in t && d.id != id
    ensures UniqueKeys(t, DoctorKey) ==> UniqueKeys(r, DoctorKey)
  {
    var keep := (d: Doctor) => d.id != id;
    if UniqueKeys(t, DoctorKey) then FilterKeepsUniqueKeys(t, keep, DoctorKey); Filter(t, keep)
    else Filter(t, keep)
  }

  /** The key EF assigns on Add: the entity's own when set, a new one when it
      is Guid.Empty. */
  function AssignedKey(id: Guid, generated: Guid): (r: Guid)
    ensures id != EmptyGuid ==> r == id
    ensures id == EmptyGuid ==> r == generated
  {
    if id == EmptyGuid then generated else id
  }

  /** The database context: the three tables, updated in place. */
  class ClinicDb {
    var doctors: seq<Doctor>
    var patients: seq<Patient>
    var appointments: seq<Appointment>

    function Snapshot(): Tables
      reads this
    {
      Tables(doctors, patients, appointments)
    }

    ghost predicate Valid()
      reads this
    {
      Consistent(Snapshot())
    }

    constructor (initial: Tables)
      requires Consistent(initial)
      ensures Valid() && Snapshot() == initial
    {
      doctors := initial.doctors;
      patients := initial.patients;
      appointments := initial.appointments;
    }

    /** AppointmentRepository.AddAsync: insert the row (with a generated key
        if its key is Guid.Empty) and save; the store refuses a duplicate key
        or a dangling doctor or patient id. */
    method AddAppointment(a: Appointment) returns (r: Result<Appointment>)
      requires Valid()
      modifies this
      ensures Valid()
      ensures doctors == old(doctors) && patients == old(patients)
      ensures var row := a.(id := AssignedKey(a.id, FreshKey(old(appointments), AppointmentKey)));
              && (r.Ok? <==> FindAppointment(old(appointments), row.id).None? && ReferencesResolve(row, doctors, patients))
              && (r.Ok? ==> r.value == row && appointments == old(appointments) + [row])
              && (r.Err? ==> r == Err(Unhandled(StoreFailure)) && appointments == old(appointments))
    {
      var row := a.(id := AssignedKey(a.id, FreshKey(appointments, AppointmentKey)));
      if FindAppointment(appointments, row.id).Some? || !ReferencesResolve(row, doctors, patients) {
        return Err(Unhandled(StoreFailure));
      }
      FindAppointmentAppend(appointments, row, row.id);
      UniqueKeysAppend(appointments, row, AppointmentKey);
      appointments := appointments + [row];
      r := Ok(row);
    }

    /** AppointmentRepository.UpdateAsync: overwrite DoctorId, PatientId,
        StartDate, EndDate and Status of the row with a.id; no such row is an
        ArgumentException. */
    method UpdateAppointment(a: Appointment) returns (r: Result<()>)
      requires Valid()
      modifies this
      ensures Valid()
      ensures doctors == old(doctors) && patients == old(patients)
      ensures FindAppointment(old(appointments), a.id).None? ==>
                r == Err(InvalidArgument("Appointment with id " + KeyText(a.id) + " not found"))
      ensures FindAppointment(old(appointments), a.id).Some? && !ReferencesResolve(a, doctors, patients) ==>
                r == Err(Unhandled(StoreFailure))
      ensures r.Ok? <==> FindAppointment(old(appointments), a.id).Some? && ReferencesResolve(a, doctors, patients)
      ensures r.Err? ==> appointments == old(appointments)
      ensures r.Ok? ==> appointments == AppointmentsUpdated(old(appointments), a)
    {
      if FindAppointment(appointments, a.id).None? {
        return Err(InvalidArgument("Appointment with id " + KeyText(a.id) + " not found"));
      }
      if !ReferencesResolve(a, doctors, patients) {
        return Err(Unhandled(StoreFailure));
      }
      var u := AppointmentsUpdated(appointments, a);
      UniqueKeysSameKeys(appointments, u, AppointmentKey);
      forall x | x in u
        ensures ReferencesResolve(x, doctors, patients)
      {
        var i :| 0 <= i < |u| && u[i] == x;
      }
      appointments := u;
      r := Ok(());
    }

    /** AppointmentRepository.DeleteAsync: remove the row with that key; no
        such row is an ArgumentException. */
    method DeleteAppointment(id: Guid) returns (r: Result<()>)
      requires Valid()
      modifies this
      ensures Valid()
      ensures doctors == old(doctors) && patients == old(patients)
      ensures r.Err? <==> FindAppointment(old(appointments), id).None?
      ensures r.Err? ==> r == Err(InvalidArgument("Appointment with id " + KeyText(id) + " does not exist"))
                         && appointments == old(appointments)
      ensures r.Ok? ==> appointments == AppointmentsWithout(old(appointments), id)
      ensures NoDoubleBooking(old(appointments)) ==> NoDoubleBooking(appointments)
    {
      if FindAppointment(appointments, id).None? {
        return Err(InvalidArgument("Appointment with id " + KeyText(id) + " does not exist"));
      }
      appointments := AppointmentsWithout(appointments, id);
      r := Ok(());
    }

    /** PatientRepository.AddAsync. */
    method AddPatient(p: Patient) returns (r: Result<Patient>)
      requires Valid()
      modifies this
      ensures Valid()
      ensures doctors == old(doctors) && appointments == old(appointments)
      ensures var row := p.(id := AssignedKey(p.id, FreshKey(old(patients), PatientKey)));
              && (r.Ok? <==> FindPatient(old(patients), row.id).None?)
              && (r.Ok? ==> r.value == row && patients == old(patients) + [row])
              && (r.Err? ==> r == Err(Unhandled(StoreFailure)) && patients == old(patients))
    {
      var row := p.(id := AssignedKey(p.id, FreshKey(patients, PatientKey)));
      if FindPatient(patients, row.id).Some? {
        return Err(Unhandled(StoreFailure));
      }
      FindPatientAppend(patients, row, row.id);
      UniqueKeysAppend(patients, row, PatientKey);
      forall a | a in appointments
        ensures FindPatient(patients + [row], a.patientId).Some?
      {
        FindPatientAppend(patients, row, a.patientId);
      }
      patients := patients + [row];
      r := Ok(row);
    }

    /** PatientRepository.UpdateAsync: overwrite FirstName, LastName and
        PersonalNumericCode of the row with p.id; UserId is kept. */
    method UpdatePatient(p: Patient) returns (r: Result<()>)
      requires Valid()
      modifies this
      ensures Valid()
      ensures doctors == old(doctors) && appointments == old(appointments)
      ensures r.Err? <==> FindPatient(old(patients), p.id).None?
      ensures r.Err? ==> r == Err(InvalidArgument("Patient with id " + KeyText(p.id) + " not found"))
                         && patients == old(patients)
      ensures r.Ok? ==> patients == PatientsUpdated(old(patients), p)
    {
      if FindPatient(patients, p.id).None? {
        return Err(InvalidArgument("Patient with id " + KeyText(p.id) + " not found"));
      }
      var u := PatientsUpdated(patients, p);
      assert forall i :: 0 <= i < |u| ==> u[i].id == patients[i].id;
      UniqueKeysSameKeys(patients, u, PatientKey);
      forall a | a in appointments
        ensures FindPatient(u, a.patientId).Some?
      {
        FindPatientSameKeys(patients, u, a.patientId);
      }
      patients := u;
      r := Ok(());
    }

    /** PatientRepository.DeleteAsync: remove the patient; the cascading
        foreign key removes the patient's appointments with it. */
    method DeletePatient(id: Guid) returns (r: Result<()>)
      requires Valid()
      modifies this
      ensures Valid()
      ensures doctors == old(doctors)
      ensures r.Err? <==> FindPatient(old(patients), id).None?
      ensures r.Err? ==> r == Err(InvalidArgument("Patient with id " + KeyText(id) + " not found"))
                         && patients == old(patients) && appointments == old(appointments)
      ensures r.Ok? ==> patients == PatientsWithout(old(patients), id)
                        && appointments == AppointmentsNotOfPatient(old(appointments), id)
      ensures NoDoubleBooking(old(appointments)) ==> NoDoubleBooking(appointments)
      ensures CnpUnique(old(patients)) ==> CnpUnique(patients)
    {
      if FindPatient(patients, id).None? {
        return Err(InvalidArgument("Patient with id " + KeyText(id) + " not found"));
      }
      var remaining := PatientsWithout(patients, id);
      forall a | a in appointments && a.patientId != id
        ensures FindPatient(remaining, a.patientId).Some?
      {
        var owner := FindPatient(patients, a.patientId).value;
        assert owner in remaining;
      }
      patients := remaining;
      appointments := AppointmentsNotOfPatient(appointments, id);
      r := Ok(());
    }

    /** DoctorRepository.AddAsync. */
    method AddDoctor(d: Doctor) returns (r: Result<Doctor>)
      requires Valid()
      modifies this
      ensures Valid()
      ensures patients == old(patients) && appointments == old(appointments)
      ensures var row := d.(id := AssignedKey(d.id, FreshKey(old(doctors), DoctorKey)));
              && (r.Ok? <==> FindDoctor(old(doctors), row.id).None?)
              && (r.Ok? ==> r.value == row && doctors == old(doctors) + [row])
              && (r.Err? ==> r == Err(Unhandled(StoreFailure)) && doctors == old(doctors))
    {
      var row := d.(id := AssignedKey(d.id, FreshKey(doctors, DoctorKey)));
      if FindDoctor(doctors, row.id).Some? {
        return Err(Unhandled(StoreFailure));
      }
      FindDoctorAppend(doctors, row, row.id);
      UniqueKeysAppend(doctors, row, DoctorKey);
      forall a | a in appointments
        ensures FindDoctor(doctors + [row], a.doctorId).Some?
      {
        FindDoctorAppend(doctors, row, a.doctorId);
      }
      doctors := doctors + [row];
      r := Ok(row);
    }

    /** DoctorRepository.UpdateAsync: overwrite FirstName, LastName and
        Specialization of the row with d.id; UserId is kept. */
    method UpdateDoctor(d: Doctor) returns (r: Result<()>)
      requires Valid()
      modifies this
      ensures Valid()
      ensures patients == old(patients) && appointments == old(appointments)
      ensures r.Err? <==> FindDoctor(old(doctors), d.id).None?
      ensures r.Err? ==> r == Err(InvalidArgument("Doctor with id " + KeyText(d.id) + " not found"))
                         && doctors == old(doctors)
      ensures r.Ok? ==> doctors == DoctorsUpdated(old(doctors), d)
    {
      if FindDoctor(doctors, d.id).None? {
        return Err(InvalidArgument("Doctor with id " + KeyText(d.id) + " not found"));
      }
      var u := DoctorsUpdated(doctors, d);
      assert forall i :: 0 <= i < |u| ==> u[i].id == doctors[i].id;
      UniqueKeysSameKeys(doctors, u, DoctorKey);
      forall a | a in appointments
        ensures FindDoctor(u, a.doctorId).Some?
      {
        FindDoctorSameKeys(doctors, u, a.doctorId);
      }
      doctors := u;
      r := Ok(());
    }

    /** DoctorRepository.DeleteAsync: remove the doctor. The restricting
        foreign key refuses the delete while an appointment names the doctor,
        and then nothing changes. */
    method DeleteDoctor(id: Guid) returns (r: Result<()>)
      requires Valid()
      modifies this
      ensures Valid()
      ensures patients == old(patients) && appointments == old(appointments)
      ensures FindDoctor(old(doctors), id).None? ==>
                r == Err(InvalidArgument("Doctor with id " + KeyText(id) + " not found"))
      ensures FindDoctor(old(doctors), id).Some? && AppointmentsOfDoctor(appointments, id) != [] ==>
                r == Err(Unhandled(StoreFailure))
      ensures r.Ok? <==> FindDoctor(old(doctors), id).Some? && AppointmentsOfDoctor(appointments, id) == []
      ensures r.Err? ==> doctors == old(doctors)
      ensures r.Ok? ==> doctors == DoctorsWithout(old(doctors), id)
    {
      if FindDoctor(doctors, id).None? {
        return Err(InvalidArgument("Doctor with id " + KeyText(id) + " not found"));
      }
      if AppointmentsOfDoctor(appointments, id) != [] {
        return Err(Unhandled(StoreFailure));
      }
      var remaining := DoctorsWithout(doctors, id);
      forall a | a in appointments
        ensures FindDoctor(remaining, a.doctorId).Some?
      {
        assert a !in AppointmentsOfDoctor(appointments, id);
        var owner := FindDoctor(doctors, a.doctorId).value;
        assert owner in remaining;
      }
      doctors := remaining;
      r := Ok(());
    }
  }
}
