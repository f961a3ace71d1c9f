/** The appointment commands and the validators that run before their
    handlers. "Now" is the DateTime.Now read when the validator was built,
    passed in explicitly. */
module AppointmentValidators {
  import opened Common
  import opened Entities
  import opened AppointmentRepository
  import opened Validation

  /** The request's PatientId is carried but, as in the handler, not used. */
  datatype CreateAppointmentCommand = CreateAppointmentCommand(
    doctorId: Guid, patientId: Guid, startDate: Ticks, endDate: Ticks)

  /** The request's Status text is carried but never read. */
  datatype UpdateAppointmentCommand = UpdateAppointmentCommand(
    id: Guid, doctorId: Guid, patientId: Guid, startDate: Ticks, endDate: Ticks, status: string)

  datatype DeleteAppointmentCommand = DeleteAppointmentCommand(id: Guid)

  const DoctorIdRequired := ValidationFailure("DoctorId", "DoctorId is required")
  const PatientIdRequired := ValidationFailure("PatientId", "PatientId is required")
  const StartRequired := ValidationFailure("StartDate", "StartDate is required")
  const StartInPast := ValidationFailure("StartDate", "Appointment cannot be in the past")
  const EndRequired := ValidationFailure("EndDate", "EndDate is required")
  const EndNotAfterStart := ValidationFailure("EndDate", "EndDate must be after StartDate")
  /** A model-level rule (RuleFor(c => c)) reports an empty PropertyName. */
  const SlotTaken := ValidationFailure("", "The doctor is already booked for this time slot.")
  const AppointmentIdRequired := ValidationFailure("Id", "AppointmentId is required")

  /** The StartDate and EndDate chains shared by the create and update
      validators: NotEmpty then GreaterThan(now), NotEmpty then
      GreaterThan(StartDate). */
  function ScheduleFailures(now: Ticks, startDate: Ticks, endDate: Ticks): (r: seq<ValidationFailure>)
    ensures StartRequired in r <==> startDate == DefaultTicks
    ensures StartInPast in r <==> startDate <= now
    ensures EndRequired in r <==> endDate == DefaultTicks
    ensures EndNotAfterStart in r <==> endDate <= startDate
    ensures r == [] <==> now < startDate < endDate
    ensures forall f :: f in r ==> f.propertyName == "StartDate" || f.propertyName == "EndDate"
  {
    Check(startDate != DefaultTicks, StartRequired.propertyName, StartRequired.errorMessage)
    + Check(startDate > now, StartInPast.propertyName, StartInPast.errorMessage)
    + Check(endDate != DefaultTicks, EndRequired.propertyName, EndRequired.errorMessage)
    + Check(endDate > startDate, EndNotAfterStart.propertyName, EndNotAfterStart.errorMessage)
  }

  /** CreateAppointmentCommandValidator. PatientId is not validated and the
      repository it receives is never consulted, so the store is no input. */
  function CreateAppointmentFailures(now: Ticks, cmd: CreateAppointmentCommand): (r: seq<ValidationFailure>)
    ensures DoctorIdRequired in r <==> cmd.doctorId == EmptyGuid
    ensures StartRequired in r <==> cmd.startDate == DefaultTicks
    ensures StartInPast in r <==> cmd.startDate <= now
    ensures EndRequired in r <==> cmd.endDate == DefaultTicks
    ensures EndNotAfterStart in r <==> cmd.endDate <= cmd.startDate
    ensures r == [] <==> cmd.doctorId != EmptyGuid && now < cmd.startDate < cmd.endDate
    ensures |r| <= 5
  {
    Check(cmd.doctorId != EmptyGuid, DoctorIdRequired.propertyName, DoctorIdRequired.errorMessage)
    + ScheduleFailures(now, cmd.startDate, cmd.endDate)
  }

  /** UpdateAppointmentCommandValidator: the create rules, PatientId
      required, and the overlap query with the command's own id excluded. */
  function UpdateAppointmentFailures(t: seq<Appointment>, now: Ticks, cmd: UpdateAppointmentCommand): (r: seq<ValidationFailure>)
    ensures DoctorIdRequired in r <==> cmd.doctorId == EmptyGuid
    ensures PatientIdRequired in r <==> cmd.patientId == EmptyGuid
    ensures StartRequired in r <==> cmd.startDate == DefaultTicks
    ensures StartInPast in r <==> cmd.startDate <= now
    ensures EndRequired in r <==> cmd.endDate == DefaultTicks
    ensures EndNotAfterStart in r <==> cmd.endDate <= cmd.startDate
    ensures SlotTaken in r <==> IsOverlapping(t, cmd.doctorId, cmd.startDate, cmd.endDate, Some(cmd.id))
    ensures r == [] <==> && cmd.doctorId != EmptyGuid && cmd.patientId != EmptyGuid
                         && now < cmd.startDate < cmd.endDate
                         && !IsOverlapping(t, cmd.doctorId, cmd.startDate, cmd.endDate, Some(cmd.id))
  {
    var doctor := Check(cmd.doctorId != EmptyGuid, DoctorIdRequired.propertyName, DoctorIdRequired.errorMessage);
    var patient := Check(cmd.patientId != EmptyGuid, PatientIdRequired.propertyName, PatientIdRequired.errorMessage);
    var schedule := ScheduleFailures(now, cmd.startDate, cmd.endDate);
    var slot := Check(!IsOverlapping(t, cmd.doctorId, cmd.startDate, cmd.endDate, Some(cmd.id)),
                      SlotTaken.propertyName, SlotTaken.errorMessage);
    assert "DoctorId"[0] != "PatientId"[0] && "PatientId"[0] != "StartDate"[0];
    assert |"DoctorId"| != |"StartDate"| && |"DoctorId"| != |"EndDate"| && |"PatientId"| != |"EndDate"|;
    assert DoctorIdRequired !in patient + schedule + slot;
    assert PatientIdRequired !in doctor + schedule + slot;
    assert SlotTaken !in doctor + patient + schedule;
    doctor + patient + schedule + slot
  }

  /** DeleteAppointmentCommandValidator: the single NotEmpty rule on Id;
      existence is not checked. */
  function DeleteAppointmentFailures(cmd: DeleteAppointmentCommand): (r: seq<ValidationFailure>)
    ensures r == [] <==> cmd.id != EmptyGuid
    ensures r != [] ==> r == [AppointmentIdRequired]
  {
    Check(cmd.id != EmptyGuid, AppointmentIdRequired.propertyName, AppointmentIdRequired.errorMessage)
  }

  /** An appointment never conflicts with its own stored slot: re-submitting
      a row's current doctor and times passes the overlap rule whenever no
      other row blocks that slot. */
  lemma OwnSlotNeverConflicts(t: seq<Appointment>, k: nat, now: Ticks, cmd: UpdateAppointmentCommand)
    requires k < |t| && cmd.id == t[k].id
    requires !IsOverlapping(t[..k] + t[k + 1..], cmd.doctorId, cmd.startDate, cmd.endDate, Some(cmd.id))
    ensures SlotTaken !in UpdateAppointmentFailures(t, now, cmd)
  {
    ExcludedNeverBlocks(t, k, cmd.doctorId, cmd.startDate, cmd.endDate);
  }
}
