/** The appointment query handlers. Each reads appointments with some of the
    Doctor and Patient navigations loaded (Include) and then formats both
    names; a navigation that was not loaded is null, and reading through it
    raises a NullReferenceException. */
module AppointmentQueries {
  import opened Common
  import opened Entities
  import opened AppointmentRepository
  import opened PatientRepository
  import opened DoctorRepository
  import opened ClinicStore
  import opened AppointmentSecurity

  datatype AppointmentDto = AppointmentDto(
    id: Guid, doctorId: Guid, doctorName: string, patientId: Guid, patientName: string,
    startDate: Ticks, endDate: Ticks, status: string)

  /** An appointment as a no-tracking query materialises it: the row and the
      navigations, None where the query did not Include it. */
  datatype LoadedAppointment = LoadedAppointment(row: Appointment, doctor: Option<Doctor>, patient: Option<Patient>)

  const NullReference: string := "Object reference not set to an instance of an object."
  const NotAValidPatient: string := "Current user is not a valid patient."
  const NotAValidDoctor: string := "Current user is not a valid doctor."
  const OnlyOwnAppointments: string := "You can only view your own appointments."

  /** Materialise one row, following only the included navigations. */
  function Loader(t: Tables, includeDoctor: bool, includePatient: bool): Appointment -> LoadedAppointment {
    (a: Appointment) => LoadedAppointment(
      a,
      if includeDoctor then FindDoctor(t.doctors, a.doctorId) else None,
      if includePatient then FindPatient(t.patients, a.patientId) else None)
  }

  /** The AppointmentDto mapping every appointment handler applies. */
  function ToDto(l: LoadedAppointment): (r: Result<AppointmentDto>)
    ensures r.Err? <==> l.doctor.None? || l.patient.None?
    ensures r.Err? ==> r.error == Unhandled(NullReference)
    ensures r.Ok? ==> && r.value.id == l.row.id && r.value.doctorId == l.row.doctorId
                      && r.value.patientId == l.row.patientId
                      && r.value.startDate == l.row.startDate && r.value.endDate == l.row.endDate
                      && r.value.doctorName == FullName(l.doctor.value.firstName, l.doctor.value.lastName)
                      && r.value.patientName == FullName(l.patient.value.firstName, l.patient.value.lastName)
                      && r.value.status == StatusName(l.row.status)
  {
    if l.doctor.None? || l.patient.None? then Err(Unhandled(NullReference))
    else Ok(AppointmentDto(
      l.row.id, l.row.doctorId, FullName(l.doctor.value.firstName, l.doctor.value.lastName),
      l.row.patientId, FullName(l.patient.value.firstName, l.patient.value.lastName),
      l.row.startDate, l.row.endDate, StatusName(l.row.status)))
  }

  /** Select(...).ToList(): map in order; the first failing element aborts
      the whole list. */
  function ToDtos(ls: seq<LoadedAppointment>): (r: Result<seq<AppointmentDto>>)
    ensures r.Ok? <==> forall i :: 0 <= i < |ls| ==> ToDto(ls[i]).Ok?
    ensures r.Err? ==> r.error == Unhandled(NullReference)
    ensures r.Ok? ==> |r.value| == |ls| && forall i :: 0 <= i < |ls| ==> r.value[i] == ToDto(ls[i]).value
  {
    if |ls| == 0 then Ok([])
    else
      var head := ToDto(ls[0]);
      var tail := ToDtos(ls[1..]);
      if head.Err? then Err(head.error)
      else if tail.Err? then
        assert !ToDto(ls[1..][0]).Ok? || exists i :: 1 <= i < |ls| && !ToDto(ls[i]).Ok?;
        Err(tail.error)
      else Ok([head.value] + tail.value)
  }

  /** The list handlers' mapping over rows loaded with the given Includes. */
  function ListQuery(t: Tables, rows: seq<Appointment>, includeDoctor: bool, includePatient: bool): Result<seq<AppointmentDto>> {
    ToDtos(Map(rows, Loader(t, includeDoctor, includePatient)))
  }

  /** A list query that leaves a navigation out fails on every non-empty
      result: the mapping dereferences the missing navigation of the first
      row. */
  lemma ListQueryWithoutIncludeFails(t: Tables, rows: seq<Appointment>, includeDoctor: bool, includePatient: bool)
    requires !includeDoctor || !includePatient
    requires rows != []
    ensures ListQuery(t, rows, includeDoctor, includePatient) == Err(Unhandled(NullReference))
  {
    var ls := Map(rows, Loader(t, includeDoctor, includePatient));
    assert !ToDto(ls[0]).Ok?;
  }

  /** An empty result is an empty list, whatever was included. */
  lemma EmptyListQuery(t: Tables, includeDoctor: bool, includePatient: bool)
    ensures ListQuery(t, [], includeDoctor, includePatient) == Ok([])
  {
  }

  /** With both navigations included, a consistent store maps every listed
      row: one DTO per row, in order, carrying the row's key, times and
      status and the names of the rows its foreign keys reference. */
  lemma ListQueryLoadsAll(t: Tables, rows: seq<Appointment>)
    requires Consistent(t)
    requires forall a :: a in rows ==> a in t.appointments
    ensures var r := ListQuery(t, rows, true, true);
            && r.Ok? && |r.value| == |rows|
            && forall i :: 0 <= i < |rows| ==>
                 && r.value[i].id == rows[i].id && r.value[i].doctorId == rows[i].doctorId
                 && r.value[i].patientId == rows[i].patientId && r.value[i].status == StatusName(rows[i].status)
                 && r.value[i].startDate == rows[i].startDate && r.value[i].endDate == rows[i].endDate
                 && var d := FindDoctor(t.doctors, rows[i].doctorId).value;
                    var p := FindPatient(t.patients, rows[i].patientId).value;
                    && r.value[i].doctorName == FullName(d.firstName, d.lastName)
                    && r.value[i].patientName == FullName(p.firstName, p.lastName)
  {
    var ls := Map(rows, Loader(t, true, true));
    forall i | 0 <= i < |ls|
      ensures ToDto(ls[i]).Ok?
    {
      assert rows[i] in t.appointments;
    }
  }

  /** GetAppointmentByIdQueryHandler over GetByIdAsync, which includes both
      navigations. */
  function GetAppointmentById(t: Tables, id: Guid): (r: Result<AppointmentDto>)
    ensures FindAppointment(t.appointments, id).None? ==>
              r == Err(InvalidArgument("Appointment with id " + KeyText(id) + " not found"))
    ensures Consistent(t) ==> (r.Ok? <==> FindAppointment(t.appointments, id).Some?)
    ensures r.Ok? ==> && r.value.id == id
                      && exists a :: a in t.appointments && a.id == id && ToDto(Loader(t, true, true)(a)) == r
  {
    var found := FindAppointment(t.appointments, id);
    if found.None? then Err(InvalidArgument("Appointment with id " + KeyText(id) + " not found"))
    else ToDto(Loader(t, true, true)(found.value))
  }

  /** The caller-identity checks both list handlers make before querying:
      the caller must have a profile, and ask for that profile's id. */
  function ListAccess(profile: Option<Guid>, requested: Guid, notAProfile: string): (r: Option<Error>)
    ensures r.None? <==> profile == Some(requested)
    ensures profile.None? ==> r == Some(InvalidOperation(notAProfile))
    ensures profile.Some? && profile.value != requested ==> r == Some(Unauthorized(OnlyOwnAppointments))
  {
    if profile.None? then Some(InvalidOperation(notAProfile))
    else if profile.value != requested then Some(Unauthorized(OnlyOwnAppointments))
    else None
  }

  function PatientProfile(t: Tables, caller: Principal): Option<Guid> {
    var me := PatientByUser(t.patients, caller.userId);
    if me.None? then None else Some(me.value.id)
  }

  function DoctorProfile(t: Tables, caller: Principal): Option<Guid> {
    var me := DoctorByUser(t.doctors, caller.userId);
    if me.None? then None else Some(me.value.id)
  }

  /** GetAppointmentsByPatientIdQueryHandler as written: GetByPatientIdAsync
      includes only the Doctor navigation. */
  function GetAppointmentsByPatientIdAsWritten(t: Tables, caller: Principal, patientId: Guid): (r: Result<seq<AppointmentDto>>)
    ensures ListAccess(PatientProfile(t, caller), patientId, NotAValidPatient).Some? ==>
              r == Err(ListAccess(PatientProfile(t, caller), patientId, NotAValidPatient).value)
  {
    var denied := ListAccess(PatientProfile(t, caller), patientId, NotAValidPatient);
    if denied.Some? then Err(denied.value)
    else ListQuery(t, AppointmentsOfPatient(t.appointments, patientId), true, false)
  }

  /** A patient with at least one appointment gets a server error instead of
      the list. */
  lemma PatientListAsWrittenFails(t: Tables, caller: Principal)
    requires PatientByUser(t.patients, caller.userId).Some?
    requires AppointmentsOfPatient(t.appointments, PatientByUser(t.patients, caller.userId).value.id) != []
    ensures GetAppointmentsByPatientIdAsWritten(t, caller, PatientByUser(t.patients, caller.userId).value.id)
              == Err(Unhandled(NullReference))
  {
    var id := PatientByUser(t.patients, caller.userId).value.id;
    ListQueryWithoutIncludeFails(t, AppointmentsOfPatient(t.appointments, id), true, false);
  }

  /** GetAppointmentsByPatientIdQueryHandler with both navigations loaded:
      the caller's own appointments, one DTO per row, in table order. */
  function GetAppointmentsByPatientId(t: Tables, caller: Principal, patientId: Guid): (r: Result<seq<AppointmentDto>>)
    ensures ListAccess(PatientProfile(t, caller), patientId, NotAValidPatient).Some? ==>
              r == Err(ListAccess(PatientProfile(t, caller), patientId, NotAValidPatient).value)
    ensures Consistent(t) ==> (r.Ok? <==> PatientProfile(t, caller) == Some(patientId))
    ensures r.Ok? ==> var rows := AppointmentsOfPatient(t.appointments, patientId);
                      && |r.value| == |rows|
                      && forall i :: 0 <= i < |rows| ==> r.value[i].id == rows[i].id && r.value[i].patientId == patientId
  {
    var denied := ListAccess(PatientProfile(t, caller), patientId, NotAValidPatient);
    var rows := AppointmentsOfPatient(t.appointments, patientId);
    if denied.Some? then Err(denied.value)
    else
      if Consistent(t) then ListQueryLoadsAll(t, rows); ListQuery(t, rows, true, true)
      else ListQuery(t, rows, true, true)
  }

  /** GetAppointmentsByDoctorIdQueryHandler as written: GetByDoctorIdAsync
      includes only the Patient navigation. */
  function GetAppointmentsByDoctorIdAsWritten(t: Tables, caller: Principal, doctorId: Guid): (r: Result<seq<AppointmentDto>>)
    ensures ListAccess(DoctorProfile(t, caller), doctorId, NotAValidDoctor).Some? ==>
              r == Err(ListAccess(DoctorProfile(t, caller), doctorId, NotAValidDoctor).value)
  {
    var denied := ListAccess(DoctorProfile(t, caller), doctorId, NotAValidDoctor);
    if denied.Some? then Err(denied.value)
    else ListQuery(t, AppointmentsOfDoctor(t.appointments, doctorId), false, true)
  }

  /** A doctor with at least one appointment gets a server error instead of
      the list. */
  lemma DoctorListAsWrittenFails(t: Tables, caller: Principal)
    requires DoctorByUser(t.doctors, caller.userId).Some?
    requires AppointmentsOfDoctor(t.appointments, DoctorByUser(t.doctors, caller.userId).value.id) != []
    ensures GetAppointmentsByDoctorIdAsWritten(t, caller, DoctorByUser(t.doctors, caller.userId).value.id)
              == Err(Unhandled(NullReference))
  {
    var id := DoctorByUser(t.doctors, caller.userId).value.id;
    ListQueryWithoutIncludeFails(t, AppointmentsOfDoctor(t.appointments, id), false, true);
  }

  /** GetAppointmentsByDoctorIdQueryHandler with both navigations loaded. */
  function GetAppointmentsByDoctorId(t: Tables, caller: Principal, doctorId: Guid): (r: Result<seq<AppointmentDto>>)
    ensures ListAccess(DoctorProfile(t, caller), doctorId, NotAValidDoctor).Some? ==>
              r == Err(ListAccess(DoctorProfile(t, caller), doctorId, NotAValidDoctor).value)
    ensures Consistent(t) ==> (r.Ok? <==> DoctorProfile(t, caller) == Some(doctorId))
    ensures r.Ok? ==> var rows := AppointmentsOfDoctor(t.appointments, doctorId);
                      && |r.value| == |rows|
                      && forall i :: 0 <= i < |rows| ==> r.value[i].id == rows[i].id && r.value[i].doctorId == doctorId
  {
    var denied := ListAccess(DoctorProfile(t, caller), doctorId, NotAValidDoctor);
    var rows := AppointmentsOfDoctor(t.appointments, doctorId);
    if denied.Some? then Err(denied.value)
    else
      if Consistent(t) then ListQueryLoadsAll(t, rows); ListQuery(t, rows, true, true)
      else ListQuery(t, rows, true, true)
  }

  /** The list a patient receives agrees with the security service: every
      appointment in it is one the service lets that patient view. */
  lemma ListedAppointmentsAreViewable(t: Tables, caller: Principal, patientId: Guid, i: nat)
    requires Consistent(t)
    requires GetAppointmentsByPatientId(t, caller, patientId).Ok?
    requires i < |GetAppointmentsByPatientId(t, caller, patientId).value|
    ensures CanView(t, caller, GetAppointmentsByPatientId(t, caller, patientId).value[i].id) == Ok(true)
  {
    var rows := AppointmentsOfPatient(t.appointments, patientId);
    assert rows[i] in rows;
    OwnAppointmentModifiable(t, caller, rows[i]);
  }
}
