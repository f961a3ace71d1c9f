# Clinic scheduling store — a Dafny model

This project models the core of a clinic-scheduling web service. It has three tables: doctors, patients and appointments. Over them sit:

- the repositories that read and write the tables;
- the command handlers, each with a fixed order of checks and errors;
- the FluentValidation validators that run before the handlers;
- the query handlers that map rows to DTOs;
- the appointment security service;
- the global exception handler that turns an exception kind into an HTTP problem response.

The database context is a class, `ClinicStore.ClinicDb`, with three `seq` fields. Each repository write (`AddAsync`, `UpdateAsync`, `DeleteAsync`) is a method with a `modifies` clause. Its postcondition states the whole new table, including the error path that leaves the tables unchanged. Each method keeps `Valid()`: primary keys are set and unique, and every appointment's doctor and patient exist. The repository reads, validators, query handlers, security service and exception mapping are pure functions. The command handlers are methods over a `ClinicDb` object.

The model proves three invariants:

- **No double booking.** No two distinct non-canceled appointments of one doctor overlap (`AppointmentRepository.NoDoubleBooking`). The create handler preserves it. So does the update handler, whenever the update validator's overlap rule passed. Deletes preserve it too.
- **Unique CNPs.** No two patients share a personal numeric code (`PatientRepository.CnpUnique`). The create and update patient handlers preserve it, and so does the patient delete.
- **Consistency.** The store's key and foreign-key consistency holds after every write.

Modelling conventions:

- A Guid is a `nat`, with 0 as `Guid.Empty`.
- A `DateTime` is a tick count, with 0 as `default(DateTime)`.
- The caller is an explicit `Principal`: an optional user id and a set of roles.
- Every exception kind is a constructor of `Common.Error`.
- A handler's result is `Result<T>`: `Ok` for a normal return, `Err` for an exception.

## Model

| member | source | states |
|---|---|---|
| Common.FullName | MedicalApp.Application/Features/Patients/Queries/GetById/GetPatientByIdQueryHandler.cs:19 | the interpolated name is the first name, one space, then the last name; both parts can be read back from the result |
| Common.FreshKey | MedicalApp.Application/Features/Appointments/Commands/CreateAppointment/CreateAppointmentCommandHandler.cs:34 | a generated key is not Guid.Empty and differs from every key already in the table |
| Common.MapFilterCommute | MedicalApp.Application/Features/Doctors/Queries/GetBySpecialization/GetDoctorBySpecializationQueryHandler.cs:11-16 | projecting then filtering on the projection equals filtering then projecting, entry for entry and in order |
| Entities.StatusNameInjective | MedicalApp.Application/Features/Appointments/Queries/GetAppointmentById/GetAppointmentByIdQueryHandler.cs:22 | distinct statuses print as distinct enum names |
| AppointmentRepository.FindAppointment | MedicalApp.Infrastructure/Repositories/AppointmentRepository.cs:42-49 | the lookup is empty exactly when no row has the id; otherwise it is a stored row with that id |
| AppointmentRepository.AppointmentsOfDoctor | MedicalApp.Infrastructure/Repositories/AppointmentRepository.cs:51-58 | an appointment is listed exactly when it is stored with that DoctorId |
| AppointmentRepository.AppointmentsOfPatient | MedicalApp.Infrastructure/Repositories/AppointmentRepository.cs:60-67 | an appointment is listed exactly when it is stored with that PatientId |
| AppointmentRepository.AppointmentsOfDoctorExact | MedicalApp.Infrastructure/Repositories/AppointmentRepository.cs:51-58 | each matching row appears as often as it is stored, and the query distributes over a split of the table, so table order is kept |
| AppointmentRepository.AppointmentsOfPatientExact | MedicalApp.Infrastructure/Repositories/AppointmentRepository.cs:60-67 | the same, for the patient query |
| AppointmentRepository.IsOverlapping | MedicalApp.Infrastructure/Repositories/AppointmentRepository.cs:69-85 | true exactly when some row has the doctor, is not Canceled, has start < end and end > start against the requested slot, and is not the excluded id |
| AppointmentRepository.IntervalsOverlapSymmetric | MedicalApp.Infrastructure/Repositories/AppointmentRepository.cs:77 | the overlap comparison is symmetric in the two intervals |
| AppointmentRepository.BackToBackDoesNotBlock | MedicalApp.Infrastructure/Repositories/AppointmentRepository.cs:77 | a slot starting exactly when a stored one ends is not blocked by it, because both comparisons are strict |
| AppointmentRepository.IsOverlappingConcat | MedicalApp.Infrastructure/Repositories/AppointmentRepository.cs:84 | the overlap query over two concatenated parts is the disjunction of the queries over the parts |
| AppointmentRepository.RemovingNonBlockingRow | MedicalApp.Infrastructure/Repositories/AppointmentRepository.cs:73-84 | dropping a row that does not pass the filter leaves the answer unchanged |
| AppointmentRepository.CanceledNeverBlocks | MedicalApp.Infrastructure/Repositories/AppointmentRepository.cs:76 | a Canceled appointment never contributes to the answer |
| AppointmentRepository.ExcludedNeverBlocks | MedicalApp.Infrastructure/Repositories/AppointmentRepository.cs:79-82 | the row whose id is excluded never contributes to the answer |
| AppointmentRepository.AppendKeepsNoDoubleBooking | MedicalApp.Application/Features/Appointments/Commands/CreateAppointment/CreateAppointmentCommandHandler.cs:24-41 | inserting a row whose slot the unexcluded query reports free keeps the no-double-booking invariant |
| AppointmentRepository.ReplaceKeepsNoDoubleBooking | MedicalApp.Application/Features/Appointments/Commands/UpdateAppointment/UpdateAppointmentCommandValidator.cs:20-26 | overwriting a row with a slot the self-excluding query reports free keeps the invariant, given unique keys |
| AppointmentRepository.OverwriteKeepsNoDoubleBooking | MedicalApp.Infrastructure/Repositories/AppointmentRepository.cs:18-31 | the keyed overwrite the update performs keeps the invariant under the same condition |
| AppointmentRepository.BookedSlotBlocks | MedicalApp.Infrastructure/Repositories/AppointmentRepository.cs:73-84 | once an active appointment holds a slot, every overlapping slot of that doctor is reported taken |
| AppointmentRepository.FindAppointmentAppend | MedicalApp.Infrastructure/Repositories/AppointmentRepository.cs:11-16 | after an insert, the keys found are the old keys plus the new row's key |
| PatientRepository.FindPatient | MedicalApp.Infrastructure/Repositories/PatientRepository.cs:24-29 | the lookup is empty exactly when no row has the id; otherwise it is a stored row with that id |
| PatientRepository.PatientByCnp | MedicalApp.Infrastructure/Repositories/PatientRepository.cs:56-61 | the lookup is empty exactly when no patient has the code; otherwise it is a stored patient with that code |
| PatientRepository.PatientByUser | MedicalApp.Application/Features/Appointments/Commands/CreateAppointment/CreateAppointmentCommandHandler.cs:17 | the caller's profile is a stored patient linked to the caller's user id; there is none for an anonymous caller |
| PatientRepository.PatientByCnpExact | MedicalApp.Infrastructure/Repositories/PatientRepository.cs:56-61 | while codes are unique, looking up a stored patient's code finds that patient |
| PatientRepository.FindPatientExact | MedicalApp.Infrastructure/Repositories/PatientRepository.cs:24-29 | while keys are unique, looking up row i's key finds row i |
| PatientRepository.AppendKeepsCnpUnique | MedicalApp.Application/Features/Patients/Commands/CreatePatient/CreatePatientCommandHandler.cs:18-32 | inserting a patient whose code the lookup does not find keeps codes unique |
| PatientRepository.ReplaceKeepsCnpUnique | MedicalApp.Application/Features/Patients/Commands/UpdatePatient/UpdatePatientCommandHandler.cs:28-39 | overwriting row k with a code that is free, or held by row k itself, keeps codes unique |
| PatientRepository.OverwriteKeepsCnpUnique | MedicalApp.Infrastructure/Repositories/PatientRepository.cs:41-54 | the keyed overwrite of names and code keeps codes unique under the same condition |
| PatientRepository.FindPatientAppend | MedicalApp.Infrastructure/Repositories/PatientRepository.cs:10-15 | after an insert, the keys found are the old keys plus the new row's key |
| PatientRepository.FindPatientSameKeys | MedicalApp.Infrastructure/Repositories/PatientRepository.cs:41-54 | an update that keeps every row's key keeps the set of keys found |
| DoctorRepository.FindDoctor | MedicalApp.Infrastructure/Repositories/DoctorRepository.cs:48-53 | the lookup is empty exactly when no row has the id; otherwise it is a stored row with that id |
| DoctorRepository.DoctorsBySpecialization | MedicalApp.Infrastructure/Repositories/DoctorRepository.cs:55-62 | exactly the doctors whose specialization equals the query, each as often as it is stored |
| DoctorRepository.DoctorByUser | MedicalApp.Application/Features/Appointments/Queries/GetAppointmentsByDoctorId/GetAppointmentsByDoctorIdQueryHandler.cs:17 | the caller's doctor profile is a stored doctor linked to the caller's user id |
| DoctorRepository.FindDoctorExact | MedicalApp.Infrastructure/Repositories/DoctorRepository.cs:48-53 | while keys are unique, looking up row i's key finds row i |
| DoctorRepository.FindDoctorAppend | MedicalApp.Infrastructure/Repositories/DoctorRepository.cs:10-15 | after an insert, the keys found are the old keys plus the new row's key |
| DoctorRepository.FindDoctorSameKeys | MedicalApp.Infrastructure/Repositories/DoctorRepository.cs:34-46 | an update that keeps every row's key keeps the set of keys found |
| ClinicStore.AppointmentsWithout | MedicalApp.Infrastructure/Repositories/AppointmentRepository.cs:33-40 | the rows left are exactly the stored rows with a different key, and keys stay unique |
| ClinicStore.AppointmentsNotOfPatient | MedicalApp.Infrastructure/Persistence/AppDbContext.cs:22-26 | the cascade leaves exactly the appointments of other patients, and keys stay unique |
| ClinicStore.PatientsWithout | MedicalApp.Infrastructure/Repositories/PatientRepository.cs:31-39 | the rows left are exactly the stored patients with a different key |
| ClinicStore.DoctorsWithout | MedicalApp.Infrastructure/Repositories/DoctorRepository.cs:24-32 | the rows left are exactly the stored doctors with a different key |
| ClinicStore.ClinicDb.constructor | MedicalApp.Infrastructure/Persistence/AppDbContext.cs:9-11 | a context opened on a consistent database holds exactly those tables |
| ClinicStore.ClinicDb.AddAppointment | MedicalApp.Infrastructure/Repositories/AppointmentRepository.cs:11-16 | the insert succeeds exactly when the key is new and both foreign keys resolve; it appends the row; otherwise it is a store failure and nothing changes |
| ClinicStore.ClinicDb.UpdateAppointment | MedicalApp.Infrastructure/Repositories/AppointmentRepository.cs:18-31 | a missing id is ArgumentException "Appointment with id … not found" and nothing changes; otherwise the row with the id gets the five new columns, and every other row is unchanged |
| ClinicStore.ClinicDb.DeleteAppointment | MedicalApp.Infrastructure/Repositories/AppointmentRepository.cs:33-40 | a missing id is ArgumentException "… does not exist"; otherwise exactly that row goes; no double booking survives |
| ClinicStore.ClinicDb.AddPatient | MedicalApp.Infrastructure/Repositories/PatientRepository.cs:10-15 | the insert succeeds exactly when the assigned key is new; it appends the row with that key |
| ClinicStore.ClinicDb.UpdatePatient | MedicalApp.Infrastructure/Repositories/PatientRepository.cs:41-54 | a missing id is ArgumentException; otherwise FirstName, LastName and PersonalNumericCode of that row are overwritten, and UserId and other rows are unchanged |
| ClinicStore.ClinicDb.DeletePatient | MedicalApp.Infrastructure/Repositories/PatientRepository.cs:31-39 | a missing id is ArgumentException; otherwise the patient goes and the cascade removes their appointments; both invariants survive |
| ClinicStore.ClinicDb.AddDoctor | MedicalApp.Infrastructure/Repositories/DoctorRepository.cs:10-15 | the insert succeeds exactly when the assigned key is new; it appends the row with that key |
| ClinicStore.ClinicDb.UpdateDoctor | MedicalApp.Infrastructure/Repositories/DoctorRepository.cs:34-46 | a missing id is ArgumentException; otherwise FirstName, LastName and Specialization of that row are overwritten, and nothing else changes |
| ClinicStore.ClinicDb.DeleteDoctor | MedicalApp.Infrastructure/Persistence/AppDbContext.cs:16-20 | a missing id is ArgumentException; a doctor who still has appointments is refused by the restricting foreign key with the tables unchanged; otherwise exactly that doctor goes |
| Validation.Check | MedicalApp.Application/Features/Appointments/Commands/DeleteAppointment/DeleteAppointmentCommandValidator.cs:9-10 | one rule reports nothing when it holds, and exactly its own (property, message) otherwise |
| Validation.NameFailures | MedicalApp.Application/Features/Patients/Commands/CreatePatient/CreatePatientCommandValidator.cs:11-13 | the required message appears exactly for a blank name, the length message exactly for more than 50 characters, and nothing for a valid name |
| Validation.CnpFormatFailuresAsWritten | MedicalApp.Application/Features/Patients/Commands/CreatePatient/CreatePatientCommandValidator.cs:19-22 | as written, the format rules pass exactly for a non-blank 13-character code that the pattern matches, where `$` may match before a final newline |
| Validation.CnpTrailingNewlineAccepted | MedicalApp.Application/Features/Patients/Commands/CreatePatient/CreatePatientCommandValidator.cs:22 | twelve digits then a newline pass every format rule as written, although the code is not all digits |
| Validation.CnpFormatFailures | MedicalApp.Application/Features/Patients/Commands/CreatePatient/CreatePatientCommandValidator.cs:19-22 | each of the three messages appears exactly when its rule fails: blank, length other than 13, a character that is not an ASCII digit |
| Validation.CnpFormatExact | MedicalApp.Application/Features/Patients/Commands/UpdatePatient/UpdatePatientCommandValidator.cs:18-21 | the corrected format rules pass exactly for thirteen ASCII digits; a blank code always fails more than NotEmpty |
| AppointmentValidators.ScheduleFailures | MedicalApp.Application/Features/Appointments/Commands/CreateAppointment/CreateAppointmentCommandValidator.cs:12-17 | each date message appears exactly when its rule fails; no failure exactly when now < start < end |
| AppointmentValidators.CreateAppointmentFailures | MedicalApp.Application/Features/Appointments/Commands/CreateAppointment/CreateAppointmentCommandValidator.cs:8-18 | "DoctorId is required", "StartDate is required" and "EndDate is required" each exactly when that field is empty, the past-start and end-order messages exactly when those comparisons fail; no failure exactly for a set doctor id and now < start < end; PatientId and the store play no part |
| AppointmentValidators.UpdateAppointmentFailures | MedicalApp.Application/Features/Appointments/Commands/UpdateAppointment/UpdateAppointmentCommandValidator.cs:8-27 | the create rules (each required-field, past-start and end-order message exactly when its condition fails) plus PatientId required plus "The doctor is already booked for this time slot." exactly when the self-excluding overlap query is true |
| AppointmentValidators.DeleteAppointmentFailures | MedicalApp.Application/Features/Appointments/Commands/DeleteAppointment/DeleteAppointmentCommandValidator.cs:7-11 | no failure exactly for a non-empty id; otherwise the single "AppointmentId is required"; the store plays no part |
| AppointmentValidators.OwnSlotNeverConflicts | MedicalApp.Application/Features/Appointments/Commands/UpdateAppointment/UpdateAppointmentCommandValidator.cs:20-25 | an appointment never conflicts with its own stored row; only the other rows count |
| AppointmentSecurity.CanModify | MedicalApp.Application/Services/AppointmentSecurityService.cs:13-38 | a missing appointment is KeyNotFound "Appointment not found" for every caller; otherwise true exactly for an admin, the linked patient or the linked doctor, else false |
| AppointmentSecurity.CanView | MedicalApp.Application/Services/AppointmentSecurityService.cs:40-43 | the same decision as CanModify for every input |
| AppointmentSecurity.OwnAppointmentModifiable | MedicalApp.Application/Services/AppointmentSecurityService.cs:25-29 | a patient may always modify an appointment booked on their own profile |
| AppointmentSecurity.StrangerRefused | MedicalApp.Application/Services/AppointmentSecurityService.cs:37 | a non-admin caller with no user id gets false, not an error, for an existing appointment; this rests on the profile lookups finding no profile for a missing user id (see the `GetByUserIdAsync` line under Left out) |
| AppointmentCommands.CreateAppointment | MedicalApp.Application/Features/Appointments/Commands/CreateAppointment/CreateAppointmentCommandHandler.cs:13-44 | no patient profile gives InvalidOperation, checked before the overlap; an overlap gives "Doctor is already booked."; otherwise exactly one row with a fresh id, the request's doctor and times, the caller's own patient id and status Scheduled is appended and that id returned; no double booking survives |
| AppointmentCommands.UpdateAppointment | MedicalApp.Application/Features/Appointments/Commands/UpdateAppointment/UpdateAppointmentCommandHandler.cs:8-19 | an unknown id is ArgumentException with no change; otherwise only the row with that id is overwritten, with the request's ids and times and status reset to the enum default Scheduled whatever status the request names; when the self-excluding overlap query is false, no double booking survives |
| AppointmentCommands.AcceptedUpdateIsFree | MedicalApp.Application/Features/Appointments/Commands/UpdateAppointment/UpdateAppointmentCommandValidator.cs:20-26 | a command the update validator accepts passes the overlap condition the invariant needs |
| AppointmentCommands.SecondBookingRefused | MedicalApp.Application/Features/Appointments/Commands/CreateAppointment/CreateAppointmentCommandHandler.cs:24-30 | after one booking, any overlapping request for the same doctor is reported taken |
| AppointmentQueries.ToDto | MedicalApp.Application/Features/Appointments/Queries/GetAppointmentById/GetAppointmentByIdQueryHandler.cs:14-23 | with both navigations present, the DTO copies id, ids and times, and carries "First Last" names and the status name; a missing navigation is a null dereference |
| AppointmentQueries.ToDtos | MedicalApp.Application/Features/Appointments/Queries/GetAppointmentByPatientId/GetAppointmentsByPatientIdQueryHandler.cs:29-38 | the list succeeds exactly when every element maps; it then has one DTO per element, in order |
| AppointmentQueries.ListQueryWithoutIncludeFails | MedicalApp.Infrastructure/Repositories/AppointmentRepository.cs:51-67 | a list query missing one Include fails on every non-empty result |
| AppointmentQueries.EmptyListQuery | MedicalApp.Application/Features/Appointments/Queries/GetAppointmentsByDoctorId/GetAppointmentsByDoctorIdQueryHandler.cs:30-38 | no appointments gives an empty list, not an error |
| AppointmentQueries.ListQueryLoadsAll | MedicalApp.Application/Features/Appointments/Queries/GetAppointmentsByDoctorId/GetAppointmentsByDoctorIdQueryHandler.cs:30-38 | with both navigations loaded over a consistent store, there is one DTO per row, in order, with the row's fields, the referenced "First Last" names and the status name |
| AppointmentQueries.GetAppointmentById | MedicalApp.Application/Features/Appointments/Queries/GetAppointmentById/GetAppointmentByIdQueryHandler.cs:9-24 | a missing id is ArgumentException "Appointment with id … not found"; over a consistent store it succeeds exactly for a stored id, with that row's DTO |
| AppointmentQueries.ListAccess | MedicalApp.Application/Features/Appointments/Queries/GetAppointmentByPatientId/GetAppointmentsByPatientIdQueryHandler.cs:16-26 | no profile gives InvalidOperation, checked first; another id gives Unauthorized "You can only view your own appointments."; access exactly for one's own id |
| AppointmentQueries.GetAppointmentsByPatientIdAsWritten | MedicalApp.Application/Features/Appointments/Queries/GetAppointmentByPatientId/GetAppointmentsByPatientIdQueryHandler.cs:12-39 | the profile and ownership checks, then the list mapped over rows loaded without the Patient navigation |
| AppointmentQueries.PatientListAsWrittenFails | MedicalApp.Infrastructure/Repositories/AppointmentRepository.cs:60-67 | as written, a patient with at least one appointment gets a null-reference failure instead of the list |
| AppointmentQueries.GetAppointmentsByPatientId | MedicalApp.Application/Features/Appointments/Queries/GetAppointmentByPatientId/GetAppointmentsByPatientIdQueryHandler.cs:12-39 | the same checks; over a consistent store it succeeds exactly for the caller's own id, with one DTO per appointment of that patient, in order |
| AppointmentQueries.GetAppointmentsByDoctorIdAsWritten | MedicalApp.Application/Features/Appointments/Queries/GetAppointmentsByDoctorId/GetAppointmentsByDoctorIdQueryHandler.cs:12-39 | the profile and ownership checks, then the list mapped over rows loaded without the Doctor navigation |
| AppointmentQueries.DoctorListAsWrittenFails | MedicalApp.Infrastructure/Repositories/AppointmentRepository.cs:51-58 | as written, a doctor with at least one appointment gets a null-reference failure instead of the list |
| AppointmentQueries.GetAppointmentsByDoctorId | MedicalApp.Application/Features/Appointments/Queries/GetAppointmentsByDoctorId/GetAppointmentsByDoctorIdQueryHandler.cs:12-39 | over a consistent store it succeeds exactly for the caller's own doctor id, with one DTO per appointment of that doctor, in order |
| AppointmentQueries.ListedAppointmentsAreViewable | MedicalApp.Application/Services/AppointmentSecurityService.cs:40-43 | every appointment in a patient's own list is one the security service lets that patient view |
| PatientValidators.PersonNameFailures | MedicalApp.Application/Features/Patients/Commands/CreatePatient/CreatePatientCommandValidator.cs:11-17 | each name message appears exactly when its rule fails, and nothing for two valid names |
| PatientValidators.CreatePatientFailures | MedicalApp.Application/Features/Patients/Commands/CreatePatient/CreatePatientCommandValidator.cs:9-29 | the uniqueness message appears exactly when some patient holds the code; no failure exactly for valid names, a 13-digit code and an unused code |
| PatientValidators.UpdatePatientFailures | MedicalApp.Application/Features/Patients/Commands/UpdatePatient/UpdatePatientCommandValidator.cs:8-30 | "This CNP is already used by another patient." appears exactly when the code's holder is a different patient; no failure exactly for valid names and a valid code that is free or one's own |
| PatientValidators.CnpFreeForExact | MedicalApp.Application/Features/Patients/Commands/UpdatePatient/UpdatePatientCommandValidator.cs:22-28 | while codes are unique, the rule passes exactly when every patient holding the code is the one being updated |
| PatientValidators.OwnCnpIsFree | MedicalApp.Application/Features/Patients/Commands/UpdatePatient/UpdatePatientCommandHandler.cs:30 | keeping one's own current code always passes |
| PatientCommands.CreatePatient | MedicalApp.Application/Features/Patients/Commands/CreatePatient/CreatePatientCommandHandler.cs:11-34 | a non-admin is Unauthorized before any lookup; a held code is InvalidOperation; otherwise exactly one patient with a fresh id is appended, found by that id, and returned; CNPs stay unique |
| PatientCommands.UpdatePatient | MedicalApp.Application/Features/Patients/Commands/UpdatePatient/UpdatePatientCommandHandler.cs:10-40 | existence, then admin-or-owner, then uniqueness excluding self, each with its error and no change; otherwise names and code are overwritten and nothing else changes; CNPs stay unique |
| PatientQueries.GetPatientById | MedicalApp.Application/Features/Patients/Queries/GetById/GetPatientByIdQueryHandler.cs:8-22 | an unknown id is ArgumentException "Patient with id … was not found."; otherwise the DTO of a stored patient with that id |
| PatientQueries.GetPatientByCnp | MedicalApp.Application/Features/Patients/Queries/GetByCnp/GetPatientByCnpQueryHandler.cs:8-22 | an unknown code is ArgumentException naming it; otherwise the DTO of a stored patient with that code |
| PatientQueries.GetAllPatients | MedicalApp.Application/Features/Patients/Queries/GetAllPatients/GetAllPatientsQueryHandler.cs:9-17 | one DTO per patient, in table order: the i-th has the i-th row's id and code, and its full name is the first name, one space, then the last name |
| PatientQueries.GetByIdMatchesList | MedicalApp.Application/Features/Patients/Queries/GetById/GetPatientByIdQueryHandler.cs:8-22 | while keys are unique, the lookup returns d exactly when d is the listed entry with that id |
| PatientQueries.LookupsAgree | MedicalApp.Application/Features/Patients/Queries/GetByCnp/GetPatientByCnpQueryHandler.cs:8-22 | while keys and codes are unique, lookup by code and lookup by id give the same DTO |
| PatientQueries.AddedPatientListed | MedicalApp.Infrastructure/Repositories/PatientRepository.cs:10-22 | after an insert, the full list is the old list with the new patient's entry appended |
| DoctorValidators.SpecializationFailures | MedicalApp.Application/Features/Doctors/Commands/CreateDoctor/CreateDoctorCommandValidator.cs:17-19 | "Specialization is required" exactly for a blank value, the length message exactly for fewer than 3 characters, with no upper bound |
| DoctorValidators.DoctorFieldFailures | MedicalApp.Application/Features/Doctors/Commands/UpdateDoctor/UpdateDoctorCommandValidator.cs:7-20 | each of the six messages appears exactly when its rule fails; no failure exactly for valid names and specialization |
| DoctorValidators.CreateDoctorFailures | MedicalApp.Application/Features/Doctors/Commands/CreateDoctor/CreateDoctorCommandValidator.cs:7-20 | no failure exactly when both names are non-blank and at most 50 characters and the specialization is non-blank and at least 3 characters; each specialization and name-length message appears exactly when its rule fails |
| DoctorValidators.UpdateDoctorFailures | MedicalApp.Application/Features/Doctors/Commands/UpdateDoctor/UpdateDoctorCommandValidator.cs:7-20 | the same rules and messages on the update request's fields |
| DoctorValidators.DoctorValidatorsAgree | MedicalApp.Application/Features/Doctors/Commands/CreateDoctor/CreateDoctorCommandValidator.cs:7-20 | the create and update validators judge the same fields alike, and email and password play no part |
| DoctorCommands.CreateDoctor | MedicalApp.Application/Features/Doctors/Commands/CreateDoctor/CreateDoctorCommandHandler.cs:9-19 | with no role check, exactly one doctor with a fresh id is appended and that id returned; a lookup by it finds the new row |
| DoctorCommands.UpdateDoctor | MedicalApp.Application/Features/Doctors/Commands/UpdateDoctor/UpdateDoctorCommandHandler.cs:10-29 | a non-admin is Unauthorized before any lookup; a missing doctor is KeyNotFound "Doctor with ID … not found."; otherwise the three fields are overwritten and nothing else changes |
| DoctorQueries.GetDoctorById | MedicalApp.Application/Features/Doctors/Queries/GetById/GetDoctorByIdQueryHandler.cs:9-19 | an unknown id is ArgumentException "Doctor with id … does not exists"; otherwise the DTO of a stored doctor with that id |
| DoctorQueries.GetAllDoctors | MedicalApp.Application/Features/Doctors/Queries/GetAllDoctors/GetAllDoctorsQueryHandler.cs:9-17 | one DTO per doctor, in table order: the i-th has the i-th row's id and specialization, and its full name is the first name, one space, then the last name |
| DoctorQueries.GetDoctorsBySpecialization | MedicalApp.Application/Features/Doctors/Queries/GetBySpecialization/GetDoctorBySpecializationQueryHandler.cs:9-17 | one DTO per doctor whose specialization equals the query, in table order, each with that doctor's id and "First Last" name; every matching doctor is listed and nothing else |
| DoctorQueries.BySpecializationIsFilteredList | MedicalApp.Application/Features/Doctors/Queries/GetBySpecialization/GetDoctorBySpecializationQueryHandler.cs:11-16 | the by-specialization list is the full list with other specializations dropped, in the same order |
| DoctorQueries.GetByIdMatchesList | MedicalApp.Application/Features/Doctors/Queries/GetById/GetDoctorByIdQueryHandler.cs:9-19 | while keys are unique, the lookup returns x exactly when x is the listed entry with that id |
| RegisterValidator.EmailFailures | MedicalApp.Application/Features/Authentication/Commands/RegisterUser/RegisterUserCommandValidator.cs:12-21 | each email message appears exactly when its rule fails: blank, malformed, over 100 characters, already in use |
| RegisterValidator.PasswordFailures | MedicalApp.Application/Features/Authentication/Commands/RegisterUser/RegisterUserCommandValidator.cs:23-25 | "Password is required" exactly for a blank password, the length message exactly for fewer than 4 characters |
| RegisterValidator.RegisterFailures | MedicalApp.Application/Features/Authentication/Commands/RegisterUser/RegisterUserCommandValidator.cs:10-45 | no failure exactly when email, password and names pass and the code is thirteen digits held by no patient |
| RegisterValidator.AcceptedRegistrationIsValidPatient | MedicalApp.Application/Features/Authentication/Commands/RegisterUser/RegisterUserCommandValidator.cs:27-44 | an accepted registration also passes the create-patient validator, and its patient joins the table without breaking CNP uniqueness |
| ExceptionHandler.ProblemFor | MedicalApp/Middleware/GlobalExceptionHandler.cs:21-63 | validation: 400 "Validation Error" with detail "One or more validation errors occurred." and the failures listed; KeyNotFound: 404 "Resource Not Found"; Unauthorized: 403 "Forbidden"; InvalidOperation: 400 "Business Logic Error / Conflict"; ArgumentException: 400 "Invalid Argument"; anything else: 500 "Internal Server Error" with "An unexpected error occurred."; the exception's message is the detail for the four named kinds; failures are listed only for validation; the instance is the request path |
| ExceptionHandler.UnhandledIsOpaque | MedicalApp/Middleware/GlobalExceptionHandler.cs:26-28 | an unexpected exception's own message never reaches the response |
| ExceptionHandler.BadRequestTitlesDistinct | MedicalApp/Middleware/GlobalExceptionHandler.cs:32-62 | the three 400 kinds are told apart by their titles |

## Left out

- Row order: the repositories' list queries have no `OrderBy`, so the database promises no order, and two separate queries need not agree. The model returns rows in the order of each table's sequence, and an insert goes last. The in-order parts of GetAllPatients, GetAllDoctors, GetDoctorsBySpecialization, AppointmentsOfDoctorExact, AppointmentsOfPatientExact, GetAppointmentsByPatientId and GetAppointmentsByDoctorId hold under that convention. So do the "appended" part of PatientQueries.AddedPatientListed and the "same order" part of DoctorQueries.BySpecializationIsFilteredList; only their membership and multiplicity parts hold for any order.
- The repositories' `GetByUserIdAsync` bodies are not part of this model. The profile lookups take the first row linked to the caller's user id, and an anonymous caller has no profile.
- Guid text format: `KeyText` stands for `Guid.ToString()` in error messages, as a non-empty digit string.
- EF key generation: `Guid.NewGuid()` and EF's client-side key generation are modelled by `FreshKey`, a deterministic key that no row holds.
- Column widths: the 50-character Specialization column and the fixed 13-character code column are not enforced by the model. Neither are the migrations.
- Concurrency: the race between an overlap check and the insert or update, asynchronous execution and cancellation tokens are left out. The model is sequential.
- Time: `DateTime.Now` is the parameter `now`, fixed when a validator is built. Time zones and `DateTimeKind` are ignored.
- Validator pipeline: the MediatR pipeline that runs validators before handlers is not part of this model. Validators and handlers are separate members, and `AcceptedUpdateIsFree` and `AcceptedRegistrationIsValidPatient` connect them.
- Validator library: FluentValidation's continue cascade, whitespace-as-empty `NotEmpty`, and an empty property name for model-level rules are modelling assumptions.
- RegisterValidator.EmailFailures: `EmailAddress()` and the identity-store lookup are opaque flags, because the library check and `UserManager` are outside the model.
- Registration, login and tokens: the registration handler, login and token generation call ASP.NET Identity and JWT signing, which are outside the model.
- Delete handlers: the three delete handlers only call the repositories' `DeleteAsync`. `ClinicDb.DeleteAppointment`, `ClinicDb.DeletePatient` and `ClinicDb.DeleteDoctor` model them.
- SQL comparison: string equality in the specialization and CNP lookups is exact, with no database collation.
- ExceptionHandler.ProblemFor: logging, JSON writing and the response-status assignment are I/O. The handler always reports the exception as handled, and the response status is the chosen problem status.
- Route-level role requirements on the endpoints are routing configuration and are not modelled.
- PatientValidators.CreatePatientFailures: uses the corrected code-format rule (thirteen ASCII digits). The validator as written also accepts twelve digits and a final newline; see the first Findings row and `Validation.CnpFormatFailuresAsWritten`.
- PatientValidators.UpdatePatientFailures: uses the corrected code-format rule, for the same reason as the create validator.
- RegisterValidator.RegisterFailures: uses the corrected code-format rule, for the same reason as the create validator.
- Validation.NameFailures: lengths are counted in Unicode scalar values (`|s|`). .NET's `MaximumLength`, `MinimumLength` and `Length` count UTF-16 code units, so a character outside the Basic Multilingual Plane counts 1 here and 2 there.
- PatientValidators.PersonNameFailures: its length rules count Unicode scalar values, not UTF-16 code units, as for Validation.NameFailures.
- DoctorValidators.SpecializationFailures: its length rules count Unicode scalar values, not UTF-16 code units, as for Validation.NameFailures.
- DoctorValidators.DoctorFieldFailures: its length rules count Unicode scalar values, not UTF-16 code units, as for Validation.NameFailures.
- DoctorValidators.CreateDoctorFailures: its length rules count Unicode scalar values, not UTF-16 code units, as for Validation.NameFailures.
- DoctorValidators.UpdateDoctorFailures: its length rules count Unicode scalar values, not UTF-16 code units, as for Validation.NameFailures.
- RegisterValidator.EmailFailures: its length rules count Unicode scalar values, not UTF-16 code units, as for Validation.NameFailures.
- RegisterValidator.PasswordFailures: its length rules count Unicode scalar values, not UTF-16 code units, as for Validation.NameFailures.
- Validation.CnpFormatFailuresAsWritten: its length rules count Unicode scalar values, not UTF-16 code units, as for Validation.NameFailures.
- Validation.CnpFormatFailures: its `Length(13)` rule counts scalar values too; for the ASCII-digit codes it accepts, the two counts agree.
- The `AppointmentStatus` enum declaration is not part of this model. The order Scheduled, Completed, Canceled, and so Scheduled as the default value, is an assumption. It decides the status `UpdateAppointmentCommandHandler` writes (`AppointmentCommands.RescheduledRow`, `Entities.DefaultStatus`).
- A profile lookup with a missing user id finds nothing. EF would translate `UserId == null` to `IS NULL` and could match a patient created without a user. `AppointmentSecurity.StrangerRefused` and the "no profile" error paths depend on this choice.

## Findings

| source | as written | input that shows it | evidently intended | confidence | as-written member | corrected member |
|---|---|---|---|---|---|---|
| MedicalApp.Application/Features/Patients/Commands/CreatePatient/CreatePatientCommandValidator.cs:22 | `Matches("^[0-9]*$")`: in .NET, `$` also matches just before a final newline, so a trailing "\n" passes the digits rule, and with twelve digits it also passes `Length(13)`. The same pattern is used in UpdatePatientCommandValidator.cs:21 and RegisterUserCommandValidator.cs:38. | "123456789012\n" | a code of exactly thirteen ASCII digits (anchor `\z`) | high, not executed | Validation.CnpFormatFailuresAsWritten, shown by Validation.CnpTrailingNewlineAccepted | Validation.CnpFormatFailures, proved by Validation.CnpFormatExact |
| MedicalApp.Infrastructure/Repositories/AppointmentRepository.cs:60-67 | `GetByPatientIdAsync` loads only the Doctor navigation of the no-tracking result. The handler then reads `a.Patient.FirstName` (GetAppointmentsByPatientIdQueryHandler.cs:34), so the Patient navigation is null there. | a patient with one stored appointment requesting their own list | both navigations loaded, so one DTO is returned per appointment | high, not executed | AppointmentQueries.GetAppointmentsByPatientIdAsWritten, shown by AppointmentQueries.PatientListAsWrittenFails | AppointmentQueries.GetAppointmentsByPatientId, proved by AppointmentQueries.ListQueryLoadsAll |
| MedicalApp.Infrastructure/Repositories/AppointmentRepository.cs:51-58 | `GetByDoctorIdAsync` loads only the Patient navigation. The handler reads `a.Doctor.FirstName` (GetAppointmentsByDoctorIdQueryHandler.cs:32), so the Doctor navigation is null there. | a doctor with one stored appointment requesting their own list | both navigations loaded | high, not executed | AppointmentQueries.GetAppointmentsByDoctorIdAsWritten, shown by AppointmentQueries.DoctorListAsWrittenFails | AppointmentQueries.GetAppointmentsByDoctorId, proved by AppointmentQueries.ListQueryLoadsAll |
