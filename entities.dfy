/** The three stored entities (Doctor, Patient, Appointment) and the
    appointment status enumeration. */
module Entities {
  import opened Common

  /** A doctor row. userId is the optional link to an identity account. */
  datatype Doctor = Doctor(
    id: Guid,
    firstName: string,
    lastName: string,
    specialization: string,
    userId: Option<string>)

  /** A patient row; personalNumericCode is the national id (CNP). */
  datatype Patient = Patient(
    id: Guid,
    firstName: string,
    lastName: string,
    personalNumericCode: string,
    userId: Option<string>)

  /** Declaration order of the enumeration; Scheduled is its default value. */
  datatype AppointmentStatus = Scheduled | Completed | Canceled

  const DefaultStatus: AppointmentStatus := Scheduled

  /** Enum.ToString(): the member's name. */
  function StatusName(s: AppointmentStatus): string {
    match s
    case Scheduled => "Scheduled"
    case Completed => "Completed"
    case Canceled => "Canceled"
  }

  /** Distinct statuses have distinct names. */
  lemma StatusNameInjective(s: AppointmentStatus, t: AppointmentStatus)
    ensures StatusName(s) == StatusName(t) <==> s == t
  {
    if s != t {
      assert StatusName(s)[1] != StatusName(t)[1];
    }
  }

  datatype Appointment = Appointment(
    id: Guid,
    doctorId: Guid,
    patientId: Guid,
    startDate: Ticks,
    endDate: Ticks,
    status: AppointmentStatus)

  function DoctorKey(d: Doctor): Guid { d.id }
  function PatientKey(p: Patient): Guid { p.id }
  function AppointmentKey(a: Appointment): Guid { a.id }
}
