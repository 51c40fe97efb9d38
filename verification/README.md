# Appointment booking and availability engine, in Dafny

A model of the core of a clinic appointment API (Laravel/PHP): the
availability listing that tiles a doctor's working day into 30-minute slots
and removes the booked ones, and the booking transition that checks the
doctor, the working hours and overlaps before inserting a `scheduled`
appointment. Around them sit the Appointment model's lifecycle hooks and
query scopes, the appointments table's column rules and unique index, the
Doctor model's fixed working hours and `isAvailableAt`, the partial-update
DTO for doctors and the two response envelopes `book` returns.

Representation:

- Time is whole minutes since 1970-01-01 00:00 (a Thursday) in one time
  zone; a date is a day number (`DayOf`), a wall-clock time is minutes since
  midnight, and the weekday follows from the day number. "Now" is a parameter.
- The appointments table is a `seq<Appointment>`. Soft-deleted rows stay in
  it with `deletedAt` set; Eloquent queries skip them, the unique index does
  not.
- `book` is the pure transition `Book(doctors, store, request, now)`,
  returning an outcome and the new table, run as one atomic step.
- The request rules `book` relies on (the string widths, start after now,
  end after start) are its precondition `ValidRequest`.
- `ensureWithinWorkingHours` returns `Option<bool>`. `None` is the failure of
  reading `$hours[0]` when a weekday has no hours: its no-hours branch only
  answers `false` for an inactive doctor, and `book` has already refused
  those, so an active doctor booking on a weekend reaches the null read.
  `book` then ends in `Crashed`, not in a 403.
- Inserting is partial: `(doctor_id, start_time)` must be free among ALL rows,
  cancelled and soft-deleted ones included, while the conflict query ignores
  both. `CancelledSlotListedButNotBookable` shows a cancelled 10:00 booking:
  the slot is listed again, yet booking it fails on the unique index.

Modules: `Wrappers` (Option, Result, PHP truthiness), `Seqs` (order-preserving
filter), `Clock` (minutes, weekdays, `H:i`, the overlap test), `Appointments`,
`AppointmentsTable`, `Doctors`, `Responses`, `UpdateDoctorDto`,
`Availability`, `Booking`, and `Engine` (cross-component properties and worked
scenarios).

## Model

| member | source | states |
|---|---|---|
| Seqs.Filter | app/Services/AvailabilityService.php:81-88 | an element is kept iff it is in the input and meets the condition; never longer than the input |
| Seqs.FilterKeepsOrder | app/Services/AvailabilityService.php:81-88 | filtering never reorders: a strictly increasing list stays strictly increasing |
| Seqs.FilterConcat | app/DataTransferObjects/UpdateDoctorDTO.php:20-26 | filtering an array literal is filtering each entry in turn |
| Clock.ParseFormatHi | app/Services/AvailabilityService.php:88-91 | reading back an `H:i` rendering yields the timestamp's wall-clock time |
| Clock.FormatHi | app/Services/AvailabilityService.php:89-90 | `format('H:i')`: five characters, two-digit hour and minute of the wall-clock time around a colon; `ParseFormatHi` reads it back |
| Clock.FormatParseHi | app/Models/Doctor.php:107-113 | every valid `HH:MM` string formats back to itself after parsing |
| Clock.OverlapsSymmetric | app/Services/AvailabilityService.php:83 | the slot filter and the booking query agree on overlap whichever interval comes first |
| Clock.TouchingIsNotOverlap | app/Services/AvailabilityService.php:83 | intervals sharing only an endpoint do not overlap (strict comparisons) |
| Appointments.ParseStatus | app/Models/Appointment.php:17-32 | a stored status string is accepted only if it is one of the five names, and then names that status |
| Appointments.ParseStatusName | app/Models/Appointment.php:17-21 | each status constant reads back as itself |
| Appointments.AllStatusesComplete | app/Models/Appointment.php:26-32 | `$statuses` lists every status, each under a distinct name |
| Appointments.CreatingHook | app/Models/Appointment.php:85-94 | a missing end becomes start + 30 when a start exists; a given end is kept; a falsy status becomes scheduled, a truthy one is kept; nothing else changes |
| Appointments.CreatingHookIdempotent | app/Models/Appointment.php:85-94 | after the hook the end is present whenever the start is and the status is truthy, so a second run changes nothing |
| Appointments.UpdatingHook | app/Models/Appointment.php:97-108 | no status change leaves the row as given; a status change bumps version by one; a change to cancelled without cancelled_at stamps now; an existing cancelled_at is kept |
| Appointments.VersionBumpsIffStatusChanges | app/Models/Appointment.php:97-108 | for updates that leave version alone, version grows by exactly one iff the status changes |
| Appointments.WithoutTrashed | app/Models/Appointment.php:12 | the soft-delete scope keeps exactly the rows without deleted_at |
| Appointments.NotCancelled | app/Models/Appointment.php:179-182 | keeps exactly the rows whose status is not cancelled |
| Appointments.NotCancelledKeepsFinishedRows | app/Models/Appointment.php:179-182 | completed and no_show rows survive `notCancelled` |
| Appointments.Upcoming | app/Models/Appointment.php:122-126 | keeps exactly the rows starting strictly after now whose status is scheduled or confirmed |
| Appointments.OnDate | app/Models/Appointment.php:147-150 | keeps exactly the rows whose start falls on the date |
| Appointments.ForDoctor | app/Models/Appointment.php:163-166 | keeps exactly the rows of the doctor |
| AppointmentsTable.Materialize | database/migrations/2026_02_16_001852_create_appointments_table.php:24-47 | on PostgreSQL a row is accepted iff patient_name, start_time and end_time are present, each patient string is at most 255 characters or only spaces past the 255th, the status is an enum value and version fits the signed `integer` (at most 2147483647); a refusal names a rule the draft breaks; an accepted row stores the patient strings cut to 255 characters, defaults status to scheduled and version to 1 and copies the other nullable columns |
| AppointmentsTable.Insert | database/migrations/2026_02_16_001852_create_appointments_table.php:64 | the insert fails iff some row, whatever its status or deletion, has the same doctor and start; otherwise the row is appended |
| AppointmentsTable.InsertKeepsKeysUnique | database/migrations/2026_02_16_001852_create_appointments_table.php:64 | a successful insert keeps `(doctor_id, start_time)` unique |
| AppointmentsTable.Create | app/Services/AppointmentService.php:60-68 | `Appointment::create` runs the hook, then the column rules: a column refusal is returned as is; a materialised row is refused with the unique-index error exactly when its key is taken, and otherwise appended |
| AppointmentsTable.SoftDelete | database/migrations/2026_02_16_001852_create_appointments_table.php:50 | deleting marks the row with deleted_at and removes nothing |
| AppointmentsTable.SoftDeletedRowStillHoldsKey | database/migrations/2026_02_16_001852_create_appointments_table.php:50-64 | a soft-deleted row vanishes from queries but still blocks an insert with its key |
| Doctors.WorkingHours | app/Models/Doctor.php:105-114 | every doctor works 09:00-17:00 on exactly Monday to Friday |
| Doctors.WorkingHoursText | app/Models/Doctor.php:105-114 | the table's bounds are "09:00" and "17:00", a whole number of 30-minute slots apart |
| Doctors.IsAvailableAt | app/Models/Doctor.php:86-100 | false for an inactive doctor, on weekends, and for any timestamp not on today's date; when true the time lies in 09:00-16:30 |
| Doctors.AvailableAtMatchesTable | app/Models/Doctor.php:92-99 | on its own date, an active doctor is available at t iff a 30-minute window from t fits that weekday's working hours |
| Doctors.Active | app/Models/Doctor.php:50-53 | keeps exactly the active doctors |
| Doctors.FullNameWithSpecialization | app/Models/Doctor.php:119-122 | the name, then " (", then the specialization, then ")" |
| Responses.ErrorResponse.GetArrayFormat | app/Http/Response/ErrorResponse.php:37-55 | success is false; both code fields equal the code; messages present iff the message is truthy; errors present iff non-empty; requires the message to have been set |
| Responses.ErrorResponse.SetCode | app/Http/Response/ErrorResponse.php:16-21 | sets the code and leaves message and errors as they were |
| Responses.ErrorResponse.SetMessage | app/Http/Response/ErrorResponse.php:23-28 | sets the message and leaves code and errors as they were |
| Responses.ErrorResponse.SetErrors | app/Http/Response/ErrorResponse.php:30-35 | sets the errors and leaves code and message as they were |
| Responses.ErrorResponse.GetCode | app/Http/Response/ErrorResponse.php:10-21 | the code read back is the stored one: setting it again changes nothing |
| Responses.ErrorSettersCode | app/Http/Response/ErrorResponse.php:16-35 | after any setter chain the code is the last one set (else the prior one) and the message is set iff some call set it |
| Responses.ErrorCodeIsLastSet | app/Http/Response/ErrorResponse.php:10-21 | from a new envelope the code is the last `setCode` argument, default 500, and the array's two code fields agree with it |
| Responses.SuccessResponse.GetArrayFormat | app/Http/Response/SuccessResponse.php:33-40 | success is true, code is `getCode()`, content is `getData()`; requires data to have been set |
| Responses.SuccessResponse.SetCode | app/Http/Response/SuccessResponse.php:14-19 | sets the code and leaves the data as it was |
| Responses.SuccessResponse.SetData | app/Http/Response/SuccessResponse.php:26-31 | sets the data and leaves the code as it was |
| Responses.SuccessResponse.GetData | app/Http/Response/SuccessResponse.php:21-24 | reads back exactly the data last set; reading unset data is an error |
| Responses.SuccessResponse.GetCode | app/Http/Response/SuccessResponse.php:10-19 | the code read back is the stored one: setting it again changes nothing |
| Responses.SuccessSettersCommute | app/Http/Response/SuccessResponse.php:10-31 | setters touch only their own field, so their order does not matter; the array reports the last values; default code 200 |
| UpdateDoctorDto.ToArray | app/DataTransferObjects/UpdateDoctorDTO.php:18-27 | no output value is null and every key is one of the five field names |
| UpdateDoctorDto.ToArrayShape | app/DataTransferObjects/UpdateDoctorDTO.php:18-27 | the output is the supplied fields, in declaration order |
| UpdateDoctorDto.ToArrayKeepsSuppliedFields | app/DataTransferObjects/UpdateDoctorDTO.php:20-26 | each key is present iff its field is non-null, and then maps to exactly the given value |
| UpdateDoctorDto.DeactivationIsKept | app/DataTransferObjects/UpdateDoctorDTO.php:25-26 | `is_active = false` is kept, the filter being `!== null` |
| UpdateDoctorDto.EmptyUpdate | app/DataTransferObjects/UpdateDoctorDTO.php:18-26 | the output is empty iff every field is null, and has at most five entries |
| Availability.GenerateSlots | app/Services/AvailabilityService.php:46-63 | slot k is [cursor + 30k, cursor + 30k + 30); every slot starts before dayEnd; the next start would be at or after dayEnd |
| Availability.SlotCount | app/Services/AvailabilityService.php:54-59 | a slot starts at dayStart + 30k iff that start is before dayEnd; ceil((dayEnd - dayStart)/30) slots, none when dayStart >= dayEnd |
| Availability.SlotsContiguous | app/Services/AvailabilityService.php:48-60 | the first slot starts at dayStart, each is 30 minutes wide, each next one starts where the previous ended |
| Availability.LastSlotEnd | app/Services/AvailabilityService.php:54-59 | the last slot ends exactly at dayEnd iff the span is a multiple of 30, and past it otherwise |
| Availability.BookedAppointments | app/Services/AvailabilityService.php:68-74 | exactly the visible, non-cancelled rows of the doctor starting on the date |
| Availability.FreeSlots | app/Services/AvailabilityService.php:79-88 | a slot is kept iff it is generated and no booking overlaps it, in the original order |
| Availability.OpenSlots | app/Services/AvailabilityService.php:32-34 | on a working date a slot is listed iff it is generated from that day's 09:00-17:00 and no visible non-cancelled booking of the doctor starting that date overlaps it; the list is chronological |
| Availability.FreeSlotsWithoutBookings | app/Services/AvailabilityService.php:79-88 | with no bookings every generated slot is kept |
| Availability.RenderSlots | app/Services/AvailabilityService.php:88-91 | one view per slot, whose `H:i` strings read back as the slot's wall-clock times |
| Availability.GetAvailableSlots | app/Services/AvailabilityService.php:21-41 | inactive doctor: 422 "Doctor is not currently active." whatever the date and bookings; weekend: 200 "Doctor is not available on {day}."; otherwise the doctor summary, the date and the open slots |
| Availability.WorkingDaySlots | app/Services/AvailabilityService.php:46-63 | a 09:00-17:00 day yields exactly 16 slots, the k-th starting at 09:00 + 30k |
| Availability.OpenSlotsOnGrid | app/Services/AvailabilityService.php:32-34 | the listing is chronological and every listed slot is one of the 16 grid slots |
| Availability.GridSlotListedIffUnblocked | app/Services/AvailabilityService.php:79-88 | a grid slot is listed iff no visible non-cancelled booking of the doctor starting that day overlaps it |
| Availability.ListedSlotsAreFree | app/Services/AvailabilityService.php:81-87 | no listed slot overlaps such a booking, and each lies within 09:00-17:00 of the date |
| Availability.TouchingBookingKeepsSlot | app/Services/AvailabilityService.php:83 | adding a booking that only touches a grid slot at an endpoint leaves that slot listed or unlisted exactly as before, whatever else is booked |
| Booking.FindDoctor | app/Services/AppointmentService.php:25 | the found doctor is in the list with that id and not deleted; none found means every doctor with the id is deleted |
| Booking.WithinRequestWidths | app/Http/Requests/BookAppointmentRequest.php:18-23 | the request's `max` rules (255, 255, 50, 1000 characters); within them the columns neither refuse nor cut a patient string |
| Booking.ValidRequest | app/Http/Requests/BookAppointmentRequest.php:17-24 | the widths, start `after:now` and end `after:start_time`; a valid request's window is non-empty and in the future |
| Booking.EndTime | app/Services/AppointmentService.php:26-29 | the supplied end, else start + 30 minutes; on a request whose end follows its start the window is non-empty |
| Booking.EnsureDoctorIsActive | app/Services/AppointmentService.php:74-80 | the doctor passes iff the doctor model's `active` scope keeps it |
| Booking.HasOverlap | app/Services/AppointmentService.php:47-52 | the conflict query finds a row iff some row of `forDoctor(notCancelled(withoutTrashed(table)))` overlaps `[start, end)` |
| Booking.EnsureWithinWorkingHours | app/Services/AppointmentService.php:82-101 | on a weekday: true iff start is at or after 09:00 and end at or before 17:00 of the start's date; weekend and active: crash; weekend and inactive: false |
| Booking.Rejection | app/Services/AppointmentService.php:33-35 | an error reply carrying the message and code, with success false |
| Booking.Book | app/Services/AppointmentService.php:23-72 | the table either stays as it was or gains exactly the booked row on a 201; no double booking and unique keys are preserved |
| Booking.CreateMaterializes | app/Services/AppointmentService.php:60-68 | the attributes `book` creates become a scheduled row at version 1 without notes or cancellation |
| Booking.NewDraft | app/Services/AppointmentService.php:60-68 | the create attributes give end and status, so the `creating` hook leaves them as they are; notes and version are not passed |
| Booking.AppendKeepsNoDoubleBooking | app/Services/AppointmentService.php:46-68 | adding a row the conflict query finds clear keeps the doctor's live, non-cancelled rows pairwise non-overlapping |
| Booking.BookUnknownDoctor | app/Services/AppointmentService.php:25 | an unknown or deleted doctor id is a not-found outcome with no change |
| Booking.BookInactiveDoctor | app/Services/AppointmentService.php:31-36 | an inactive doctor yields 403 "Cannot book with an inactive doctor." before any other check, with no change |
| Booking.BookWithoutHoursCrashes | app/Services/AppointmentService.php:85-94 | an active doctor on a weekend reaches the null read of hours: a crash with no change |
| Booking.BookOutsideHours | app/Services/AppointmentService.php:38-44 | for an active doctor on a weekday, starting before 09:00 or ending after 17:00 of the start's date is exactly the 403 "Appointment must be within working hours." case |
| Booking.BookConflict | app/Services/AppointmentService.php:46-58 | an overlapping visible non-cancelled row of the doctor yields 409 with no change |
| Booking.ConflictIgnoresNonOccupyingRows | app/Services/AppointmentService.php:47-50 | cancelled rows, deleted rows and other doctors' rows never change the conflict answer |
| Booking.BookCreatesIff | app/Services/AppointmentService.php:60-70 | a 201 creation happens iff all checks pass and the key is free; the row is scheduled, version 1, no notes, end = start + 30 unless given; otherwise nothing changes |
| Booking.BookHitsUniqueIndex | app/Services/AppointmentService.php:60-68 | all checks passing but the key held by any row, cancelled or deleted too, fails on the unique index with no change |
| Engine.BookKeepsDayContained | app/Services/AppointmentService.php:38-44 | booking keeps every row ending by midnight after its start day |
| Engine.ListedSlotHasNoConflict | app/Services/AvailabilityService.php:68-87 | on a day-contained table the booking conflict query finds nothing at a listed slot |
| Engine.ListedSlotIsBookable | app/Services/AppointmentService.php:38-58 | a listed future slot booked with the default end either succeeds or fails only on the unique index |
| Engine.ScenarioEmptyMonday | app/Services/AvailabilityService.php:46-63 | an empty Monday lists all 16 slots, from "09:00" to "16:30" |
| Engine.ScenarioOneBooking | app/Services/AvailabilityService.php:79-88 | a 10:00-10:30 booking removes the 10:00 slot and only it |
| Engine.ScenarioConflictAndSuccess | app/Services/AppointmentService.php:46-70 | booking 10:00 against it is a 409; booking 11:00 adds a scheduled 11:00-11:30 row |
| Engine.ScenarioRejections | app/Services/AppointmentService.php:31-44 | an inactive doctor is refused at any time; 08:30 is refused as outside working hours |
| Engine.WeekendBookingCrashes | app/Services/AppointmentService.php:84-94 | a Saturday booking with an active doctor crashes while the listing answers 200 "Doctor is not available on saturday." |
| Engine.CancelledSlotListedButNotBookable | database/migrations/2026_02_16_001852_create_appointments_table.php:64 | after a cancelled 10:00 booking the 10:00 slot is listed, yet booking it fails on the unique index |

## Left out

- Locking and concurrency: `DB::transaction` and `lockForUpdate` are modelled as one atomic step; nothing is claimed about concurrent bookings.
- Carbon parsing, time zones, seconds and the wall clock: times are whole minutes in one zone, and `now` is a parameter.
- The `Y-m-d` rendering of the date in the availability response: the date is echoed as its day number.
- HTTP plumbing: controllers, routes, request classes and the JSON serialisation of `abort`; the request rules appear only as `ValidRequest`.
- The doctors-table foreign key, auto-increment ids and created/updated timestamps of appointment rows.
- The `integer` limit on a version bumped by `UpdatingHook`: the hook computes version + 1 unbounded; only `Materialize` checks the limit on insert.
- AppointmentsTable.Materialize: follows PostgreSQL, the driver the repository configures; on MySQL `unsignedInteger` would accept up to 4294967295. Which error PostgreSQL reports when a draft breaks several rules at once is fixed to one order (conversions, then NOT NULL, then the enum check); the contract promises only that the error names a broken rule. The stored patient strings follow PostgreSQL's cut of trailing spaces, not MySQL's.
- The `email` format rule of the booking request: `ValidRequest` keeps only its 255-character width.
- Status-changing actions (confirm, cancel, complete, no-show) do not exist in the model class; only its `creating` and `updating` hooks are modelled.
- Scopes `past`, `today`, `betweenDates`, `withStatus`, `bySpecialization` and the appointment-count accessors: simple queries outside the booking and availability paths.
- The errors array of `ErrorResponse` is a list of strings, and `SuccessResponse` data is null, a string or a list of strings; PHP arrays with keys are not modelled.
- Doctor CRUD, listing, search and pagination, and the other DTOs, factories and seeders.
