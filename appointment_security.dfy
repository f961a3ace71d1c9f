/** AppointmentSecurityService: who may modify or view an appointment. The
    caller is an explicit principal; the lookups are the repository queries
    over the current tables, and nothing is written. */
module AppointmentSecurity {
  import opened Common
  import opened Entities
  import opened AppointmentRepository
  import opened PatientRepository
  import opened DoctorRepository
  import opened ClinicStore

  const AppointmentNotFound: string := "Appointment not found"

  /** The caller is linked to the appointment as its patient or its doctor. */
  predicate LinkedTo(t: Tables, caller: Principal, a: Appointment) {
    || (PatientByUser(t.patients, caller.userId).Some? && PatientByUser(t.patients, caller.userId).value.id == a.patientId)
    || (DoctorByUser(t.doctors, caller.userId).Some? && DoctorByUser(t.doctors, caller.userId).value.id == a.doctorId)
  }

  /** CanModifyAsync: a missing appointment is a KeyNotFoundException for
      every caller; otherwise admin, then own patient profile, then own
      doctor profile grant access, and anything else is a plain false. */
  function CanModify(t: Tables, caller: Principal, appointmentId: Guid): (r: Result<bool>)
    ensures r.Err? <==> FindAppointment(t.appointments, appointmentId).None?
    ensures r.Err? ==> r.error == KeyNotFound(AppointmentNotFound)
    ensures r == Ok(true) <==>
              FindAppointment(t.appointments, appointmentId).Some?
              && (IsAdmin(caller) || LinkedTo(t, caller, FindAppointment(t.appointments, appointmentId).value))
  {
    var found := FindAppointment(t.appointments, appointmentId);
    if found.None? then Err(KeyNotFound(AppointmentNotFound))
    else if IsAdmin(caller) then Ok(true)
    else
      var patient := PatientByUser(t.patients, caller.userId);
      if patient.Some? && found.value.patientId == patient.value.id then Ok(true)
      else
        var doctor := DoctorByUser(t.doctors, caller.userId);
        if doctor.Some? && found.value.doctorId == doctor.value.id then Ok(true)
        else Ok(false)
  }

  /** CanViewAsync: the same decision as CanModifyAsync. */
  function CanView(t: Tables, caller: Principal, appointmentId: Guid): (r: Result<bool>)
    ensures r.Err? <==> FindAppointment(t.appointments, appointmentId).None?
    ensures r.Err? ==> r.error == KeyNotFound(AppointmentNotFound)
    ensures r == Ok(true) <==>
              FindAppointment(t.appointments, appointmentId).Some?
              && (IsAdmin(caller) || LinkedTo(t, caller, FindAppointment(t.appointments, appointmentId).value))
  {
    CanModify(t, caller, appointmentId)
  }

  /** A patient may always modify an appointment booked on their own profile:
      when the table holds the row under its unique key, the decision is
      true, whatever else the tables hold. */
  lemma OwnAppointmentModifiable(t: Tables, caller: Principal, a: Appointment)
    requires UniqueKeys(t.appointments, AppointmentKey) && a in t.appointments
    requires PatientByUser(t.patients, caller.userId).Some?
    requires a.patientId == PatientByUser(t.patients, caller.userId).value.id
    ensures CanModify(t, caller, a.id) == Ok(true)
  {
    var i :| 0 <= i < |t.appointments| && t.appointments[i] == a;
    var found := FindAppointment(t.appointments, a.id).value;
    var j :| 0 <= j < |t.appointments| && t.appointments[j] == found;
    assert AppointmentKey(t.appointments[i]) == AppointmentKey(t.appointments[j]);
  }

  /** A caller who is neither admin nor linked to any profile is refused
      every existing appointment. */
  lemma StrangerRefused(t: Tables, caller: Principal, appointmentId: Guid)
    requires !IsAdmin(caller)
    requires caller.userId.None?
    requires FindAppointment(t.appointments, appointmentId).Some?
    ensures CanModify(t, caller, appointmentId) == Ok(false)
  {
  }
}
