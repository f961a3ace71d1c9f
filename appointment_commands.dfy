/** The appointment command handlers: CreateAppointmentCommandHandler and
    UpdateAppointmentCommandHandler as methods over the store, with the
    double-booking invariant each of them keeps. */
module AppointmentCommands {
  import opened Common
  import opened Entities
  import opened AppointmentRepository
  import opened PatientRepository
  import opened DoctorRepository
  import opened ClinicStore
  import opened AppointmentValidators

  const NotAPatient: string := "Current user is not registered as a patient."
  const DoctorBooked: string := "Doctor is already booked."

  /** The row CreateAppointment inserts: the request's doctor and times, the
      caller's own patient id, status Scheduled. */
  function BookedRow(id: Guid, cmd: CreateAppointmentCommand, patientId: Guid): (r: Appointment)
    ensures r.id == id && r.patientId == patientId && r.status == Scheduled
    ensures r.doctorId == cmd.doctorId && r.startDate == cmd.startDate && r.endDate == cmd.endDate
  {
    Appointment(id, cmd.doctorId, patientId, cmd.startDate, cmd.endDate, Scheduled)
  }

  /** CreateAppointmentCommandHandler.Handle: resolve the caller's patient
      profile, refuse an overlapping slot, insert a Scheduled row under a new
      key, return the key. The store refuses an unknown doctor. */
  method CreateAppointment(db: ClinicDb, caller: Principal, cmd: CreateAppointmentCommand) returns (r: Result<Guid>)
    requires db.Valid()
    modifies db
    ensures db.Valid()
    ensures db.doctors == old(db.doctors) && db.patients == old(db.patients)
    ensures var me := PatientByUser(old(db.patients), caller.userId);
            var taken := IsOverlapping(old(db.appointments), cmd.doctorId, cmd.startDate, cmd.endDate, None);
            && (me.None? ==> r == Err(InvalidOperation(NotAPatient)))
            && (me.Some? && taken ==> r == Err(InvalidOperation(DoctorBooked)))
            && (me.Some? && !taken && FindDoctor(old(db.doctors), cmd.doctorId).None? ==> r == Err(Unhandled(StoreFailure)))
            && (r.Ok? <==> me.Some? && !taken && FindDoctor(old(db.doctors), cmd.doctorId).Some?)
            && (r.Ok? ==> && r.value != EmptyGuid
                          && FindAppointment(old(db.appointments), r.value).None?
                          && db.appointments == old(db.appointments) + [BookedRow(r.value, cmd, me.value.id)])
    ensures r.Err? ==> db.appointments == old(db.appointments)
    ensures NoDoubleBooking(old(db.appointments)) ==> NoDoubleBooking(db.appointments)
  {
    var me := PatientByUser(db.patients, caller.userId);
    if me.None? {
      return Err(InvalidOperation(NotAPatient));
    }
    if IsOverlapping(db.appointments, cmd.doctorId, cmd.startDate, cmd.endDate, None) {
      return Err(InvalidOperation(DoctorBooked));
    }
    var row := BookedRow(FreshKey(db.appointments, AppointmentKey), cmd, me.value.id);
    FindAppointmentAppend(db.appointments, row, row.id);
    assert FindPatient(db.patients, row.patientId).Some? by {
      var i :| 0 <= i < |db.patients| && db.patients[i] == me.value;
    }
    if NoDoubleBooking(db.appointments) {
      AppendKeepsNoDoubleBooking(db.appointments, row);
    }
    var added := db.AddAppointment(row);
    if added.Err? {
      return Err(added.error);
    }
    r := Ok(row.id);
  }

  /** The row UpdateAppointment writes: the request's ids and times, and the
      enum's default status, since the handler never sets Status. */
  function RescheduledRow(cmd: UpdateAppointmentCommand): (r: Appointment)
    ensures r.id == cmd.id && r.doctorId == cmd.doctorId && r.patientId == cmd.patientId
    ensures r.startDate == cmd.startDate && r.endDate == cmd.endDate
    ensures r.status == DefaultStatus && r.status == Scheduled
  {
    Appointment(cmd.id, cmd.doctorId, cmd.patientId, cmd.startDate, cmd.endDate, DefaultStatus)
  }

  /** UpdateAppointmentCommandHandler.Handle: one UpdateAsync with a row built
      from the request. When the update validator's overlap rule passed, the
      double-booking invariant survives. */
  method UpdateAppointment(db: ClinicDb, cmd: UpdateAppointmentCommand) returns (r: Result<()>)
    requires db.Valid()
    modifies db
    ensures db.Valid()
    ensures db.doctors == old(db.doctors) && db.patients == old(db.patients)
    ensures FindAppointment(old(db.appointments), cmd.id).None? ==>
              r == Err(InvalidArgument("Appointment with id " + KeyText(cmd.id) + " not found"))
    ensures r.Ok? <==> FindAppointment(old(db.appointments), cmd.id).Some?
                       && ReferencesResolve(RescheduledRow(cmd), db.doctors, db.patients)
    ensures r.Err? ==> db.appointments == old(db.appointments)
    ensures r.Ok? ==> db.appointments == AppointmentsUpdated(old(db.appointments), RescheduledRow(cmd))
    ensures && NoDoubleBooking(old(db.appointments))
            && !IsOverlapping(old(db.appointments), cmd.doctorId, cmd.startDate, cmd.endDate, Some(cmd.id))
            ==> NoDoubleBooking(db.appointments)
  {
    var row := RescheduledRow(cmd);
    ghost var before := db.appointments;
    r := db.UpdateAppointment(row);
    if r.Ok? && NoDoubleBooking(before)
       && !IsOverlapping(before, cmd.doctorId, cmd.startDate, cmd.endDate, Some(cmd.id)) {
      OverwriteKeepsNoDoubleBooking(before, row);
    }
  }

  /** Validation is what makes the update safe: a command the update
      validator accepts passes the overlap rule the invariant needs. */
  lemma AcceptedUpdateIsFree(t: seq<Appointment>, now: Ticks, cmd: UpdateAppointmentCommand)
    requires UpdateAppointmentFailures(t, now, cmd) == []
    ensures !IsOverlapping(t, cmd.doctorId, cmd.startDate, cmd.endDate, Some(cmd.id))
    ensures now < cmd.startDate < cmd.endDate
  {
  }

  /** Booking the same slot twice: the second request for an overlapping
      slot of the same doctor is refused, whoever makes it. */
  lemma SecondBookingRefused(t: seq<Appointment>, id: Guid, first: CreateAppointmentCommand,
                             second: CreateAppointmentCommand, patientId: Guid)
    requires second.doctorId == first.doctorId
    requires first.startDate < second.endDate && first.endDate > second.startDate
    ensures IsOverlapping(t + [BookedRow(id, first, patientId)], second.doctorId, second.startDate, second.endDate, None)
  {
    BookedSlotBlocks(t, BookedRow(id, first, patientId), second.startDate, second.endDate);
  }
}
