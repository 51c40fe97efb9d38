/** `AppointmentService::book`: validates a booking against the doctor and
    the working hours, then checks for overlap and inserts, as one atomic
    step over the appointments table. */
module Booking {
  import opened Wrappers
  import opened Clock
  import opened Appointments
  import opened AppointmentsTable
  import opened Doctors
  import opened Responses

  /** The validated booking request (`BookAppointmentDTO`), times parsed. */
  datatype BookRequest = BookRequest(
    doctorId: nat,
    patientName: string,
    start: int,
    patientEmail: Option<string>,
    patientPhone: Option<string>,
    end: Option<int>,
    notes: Option<string>)

  /** The string widths `BookAppointmentRequest` allows: 255 characters of
      name and email, 50 of phone, 1000 of notes. Within them the columns
      neither refuse nor cut any patient string. */
  predicate WithinRequestWidths(req: BookRequest): (ok: bool)
    ensures ok ==> StoreVarchar(req.patientName) == req.patientName
    ensures ok ==> StoreNullableVarchar(req.patientEmail) == req.patientEmail
    ensures ok ==> StoreNullableVarchar(req.patientPhone) == req.patientPhone
  {
    && |req.patientName| <= 255
    && (req.patientEmail.Some? ==> |req.patientEmail.value| <= 255)
    && (req.patientPhone.Some? ==> |req.patientPhone.value| <= 50)
    && (req.notes.Some? ==> |req.notes.value| <= 1000)
  }

  /** The request rules `book` relies on: the string widths, the start lies
      after `now`, and a supplied end lies after the start; so the window
      `book` checks is non-empty and in the future. */
  predicate ValidRequest(req: BookRequest, now: int): (ok: bool)
    ensures ok ==> now < req.start < EndTime(req)
  {
    WithinRequestWidths(req) && req.start > now && (req.end.Some? ==> req.end.value > req.start)
  }

  /** The end of the requested window: the supplied end, else 30 minutes on.
      On a valid request the window is never empty. */
  function EndTime(req: BookRequest): (end: int)
    ensures req.end.Some? ==> end == req.end.value
    ensures req.end.None? ==> end - req.start == SlotDuration
    ensures (req.end.Some? ==> req.end.value > req.start) ==> end > req.start
  {
    req.end.GetOr(req.start + SlotDuration)
  }

  /** `Doctor::findOrFail`: the doctor with that id, unless soft-deleted. */
  function FindDoctor(doctors: seq<Doctor>, id: nat): (r: Option<Doctor>)
    ensures r.Some? ==> r.value in doctors && r.value.id == id && r.value.deletedAt.None?
    ensures r.None? ==> forall d :: d in doctors && d.id == id ==> d.deletedAt.Some?
    decreases |doctors|
  {
    if |doctors| == 0 then None
    else if doctors[0].id == id && doctors[0].deletedAt.None? then Some(doctors[0])
    else FindDoctor(doctors[1..], id)
  }

  /** `ensureDoctorIsActive`: the service's check agrees with the doctor
      model's `active` scope. */
  predicate EnsureDoctorIsActive(doctor: Doctor): (ok: bool)
    ensures ok <==> doctor in Active([doctor])
  {
    doctor.isActive
  }

  /** `ensureWithinWorkingHours`, anchored on the start's date and weekday.
      `None` is the crash of reading `$hours[0]` on a day without hours: the
      no-hours branch only answers `false` for an inactive doctor. */
  function EnsureWithinWorkingHours(doctor: Doctor, start: int, end: int): (r: Option<bool>)
    ensures IsWeekday(WeekdayOf(DayOf(start))) ==>
              r == Some(At(DayOf(start), DayStart) <= start && end <= At(DayOf(start), DayEnd))
    ensures !IsWeekday(WeekdayOf(DayOf(start))) && doctor.isActive ==> r.None?
    ensures !IsWeekday(WeekdayOf(DayOf(start))) && !doctor.isActive ==> r == Some(false)
  {
    var day := WeekdayOf(DayOf(start));
    var table := WorkingHours(doctor);
    if day !in table && !doctor.isActive then Some(false)
    else if day !in table then None
    else
      var dayStart := At(DayOf(start), table[day].start);
      var dayEnd := At(DayOf(start), table[day].end);
      Some(!(start < dayStart || end > dayEnd))
  }

  /** The conflict query: some visible, non-cancelled row of the doctor whose
      interval overlaps `[start, end)`. */
  predicate HasOverlap(store: seq<Appointment>, doctorId: nat, start: int, end: int): (found: bool)
    ensures found <==> exists a :: a in ForDoctor(NotCancelled(WithoutTrashed(store)), doctorId) &&
                                   Overlaps(a.start, a.end, start, end)
  {
    exists i :: 0 <= i < |store| && Occupies(store[i]) && store[i].doctorId == doctorId &&
      Overlaps(store[i].start, store[i].end, start, end)
  }

  /** What `book` ends in. `DoctorNotFound` is `findOrFail`'s 404, `Crashed`
      the failed read of missing hours, `StoreFailed` a database exception
      that rolls the transaction back. */
  datatype BookOutcome =
    | Replied(response: Response)
    | DoctorNotFound
    | Crashed
    | StoreFailed(error: DbError)

  datatype BookResult = BookResult(outcome: BookOutcome, store: seq<Appointment>)

  const InactiveDoctorMessage: string := "Cannot book with an inactive doctor."
  const OutsideHoursMessage: string := "Appointment must be within working hours."
  const SlotTakenMessage: string := "This time slot is already booked for the selected doctor."
  const CreatedMessage: string := "Appointment created successfully."

  /** `(new ErrorResponse())->setMessage(message)->setCode(code)`. */
  function Rejection(code: int, message: string): (r: Response)
    ensures r.ErrorReply? && r.Code() == code
    ensures r.error.message == Some(message)
    ensures !r.error.GetArrayFormat().success
  {
    ErrorReply(NewErrorResponse.SetMessage(message).SetCode(code))
  }

  /** `(new SuccessResponse())->setData(...)->setCode(201)`. */
  const Created: Response := SuccessReply(NewSuccessResponse.SetData(Text(CreatedMessage)).SetCode(HttpCreated))

  /** The attributes `book` passes to `Appointment::create`; `notes` is not
      among them. End and status are both given, so the `creating` hook
      leaves the draft as it is. */
  function NewDraft(doctorId: nat, req: BookRequest, end: int): (d: Draft)
    ensures CreatingHook(d) == d
    ensures d.notes.None? && d.version.None?
  {
    Draft(doctorId, Some(req.patientName), req.patientEmail, req.patientPhone, Some(req.start), Some(end),
          Some(StatusName(Scheduled)), None, None, None, None)
  }

  /** The row a successful booking adds. */
  function BookedRow(req: BookRequest): Appointment {
    Appointment(req.doctorId, req.patientName, req.patientEmail, req.patientPhone, req.start, EndTime(req),
                Scheduled, None, None, None, VersionDefault, None)
  }

  /** `book` as one atomic transition of the appointments table. */
  function Book(doctors: seq<Doctor>, store: seq<Appointment>, req: BookRequest, now: int): (r: BookResult)
    requires ValidRequest(req, now)
    ensures r.store == store || (r.outcome == Replied(Created) && r.store == store + [BookedRow(req)])
    ensures r.outcome == Replied(Created) ==> r.store == store + [BookedRow(req)]
    ensures NoDoubleBooking(store) ==> NoDoubleBooking(r.store)
    ensures UniqueSlotKeys(store) ==> UniqueSlotKeys(r.store)
  {
    match FindDoctor(doctors, req.doctorId)
    case None => BookResult(DoctorNotFound, store)
    case Some(doctor) =>
      var start := req.start;
      var end := EndTime(req);
      if !EnsureDoctorIsActive(doctor) then
        BookResult(Replied(Rejection(HttpForbidden, InactiveDoctorMessage)), store)
      else match EnsureWithinWorkingHours(doctor, start, end)
        case None => BookResult(Crashed, store)
        case Some(within) =>
          if !within then BookResult(Replied(Rejection(HttpForbidden, OutsideHoursMessage)), store)
          else if HasOverlap(store, doctor.id, start, end) then
            BookResult(Replied(Rejection(HttpConflict, SlotTakenMessage)), store)
          else
            CreateMaterializes(req);
            match Create(store, NewDraft(doctor.id, req, end))
            case Failure(e) => BookResult(StoreFailed(e), store)
            case Success(rows) =>
              AppendKeepsNoDoubleBooking(store, BookedRow(req));
              InsertKeepsKeysUnique(store, BookedRow(req));
              BookResult(Replied(Created), rows)
  }

  /** The creating hook and the column defaults turn `book`'s attributes into
      exactly `BookedRow`: status scheduled, version 1, no notes. */
  lemma CreateMaterializes(req: BookRequest)
    requires WithinRequestWidths(req)
    ensures Materialize(CreatingHook(NewDraft(req.doctorId, req, EndTime(req)))) == Success(BookedRow(req))
  {
  }

  /** No two visible, non-cancelled rows of one doctor overlap. */
  ghost predicate NoDoubleBooking(rows: seq<Appointment>) {
    forall i, j :: 0 <= i < j < |rows| && Occupies(rows[i]) && Occupies(rows[j]) && rows[i].doctorId == rows[j].doctorId ==>
      !Overlaps(rows[i].start, rows[i].end, rows[j].start, rows[j].end)
  }

  /** Appending a row that the conflict query does not see as overlapping
      keeps the table free of double bookings. */
  lemma AppendKeepsNoDoubleBooking(rows: seq<Appointment>, row: Appointment)
    requires !HasOverlap(rows, row.doctorId, row.start, row.end)
    ensures NoDoubleBooking(rows) ==> NoDoubleBooking(rows + [row])
  {
    if !NoDoubleBooking(rows) {
      return;
    }
    var r := rows + [row];
    forall i, j | 0 <= i < j < |r| && Occupies(r[i]) && Occupies(r[j]) && r[i].doctorId == r[j].doctorId
      ensures !Overlaps(r[i].start, r[i].end, r[j].start, r[j].end)
    {
      if j == |rows| {
        assert r[i] == rows[i];
      }
    }
  }

  // ----- the outcome of each branch -----

  /** Every check `book` makes passes: the doctor exists and is active, the
      window lies within that weekday's hours, and nothing overlaps it. */
  predicate PassesChecks(doctors: seq<Doctor>, store: seq<Appointment>, req: BookRequest) {
    && FindDoctor(doctors, req.doctorId).Some?
    && FindDoctor(doctors, req.doctorId).value.isActive
    && IsWeekday(WeekdayOf(DayOf(req.start)))
    && At(DayOf(req.start), DayStart) <= req.start
    && EndTime(req) <= At(DayOf(req.start), DayEnd)
    && !HasOverlap(store, req.doctorId, req.start, EndTime(req))
  }

  /** An unknown or soft-deleted doctor id is a 404 and changes nothing. */
  lemma BookUnknownDoctor(doctors: seq<Doctor>, store: seq<Appointment>, req: BookRequest, now: int)
    requires ValidRequest(req, now)
    requires forall d :: d in doctors && d.id == req.doctorId ==> d.deletedAt.Some?
    ensures Book(doctors, store, req, now) == BookResult(DoctorNotFound, store)
  {
  }

  /** An inactive doctor is refused with 403 before any other check, whatever
      the requested time and the bookings. */
  lemma BookInactiveDoctor(doctors: seq<Doctor>, store: seq<Appointment>, req: BookRequest, now: int)
    requires ValidRequest(req, now)
    requires FindDoctor(doctors, req.doctorId).Some? && !FindDoctor(doctors, req.doctorId).value.isActive
    ensures Book(doctors, store, req, now) == BookResult(Replied(Rejection(HttpForbidden, InactiveDoctorMessage)), store)
    ensures Rejection(HttpForbidden, InactiveDoctorMessage).Code() == 403
  {
  }

  /** An active doctor on a weekend date has no hours: the read of the
      missing hours fails instead of answering 403. */
  lemma BookWithoutHoursCrashes(doctors: seq<Doctor>, store: seq<Appointment>, req: BookRequest, now: int)
    requires ValidRequest(req, now)
    requires FindDoctor(doctors, req.doctorId).Some? && FindDoctor(doctors, req.doctorId).value.isActive
    requires !IsWeekday(WeekdayOf(DayOf(req.start)))
    ensures Book(doctors, store, req, now) == BookResult(Crashed, store)
  {
  }

  /** A window starting before 09:00 or ending after 17:00 of the start's
      date is refused with 403; a window from exactly 09:00 to exactly 17:00
      is not. */
  lemma BookOutsideHours(doctors: seq<Doctor>, store: seq<Appointment>, req: BookRequest, now: int)
    requires ValidRequest(req, now)
    requires FindDoctor(doctors, req.doctorId).Some? && FindDoctor(doctors, req.doctorId).value.isActive
    requires IsWeekday(WeekdayOf(DayOf(req.start)))
    ensures req.start < At(DayOf(req.start), DayStart) || EndTime(req) > At(DayOf(req.start), DayEnd) <==>
              Book(doctors, store, req, now) == BookResult(Replied(Rejection(HttpForbidden, OutsideHoursMessage)), store)
  {
  }

  /** An overlap with a visible non-cancelled booking of the same doctor is a
      409 and changes nothing. */
  lemma BookConflict(doctors: seq<Doctor>, store: seq<Appointment>, req: BookRequest, now: int)
    requires ValidRequest(req, now)
    requires FindDoctor(doctors, req.doctorId).Some? && FindDoctor(doctors, req.doctorId).value.isActive
    requires IsWeekday(WeekdayOf(DayOf(req.start)))
    requires At(DayOf(req.start), DayStart) <= req.start && EndTime(req) <= At(DayOf(req.start), DayEnd)
    requires HasOverlap(store, req.doctorId, req.start, EndTime(req))
    ensures Book(doctors, store, req, now) == BookResult(Replied(Rejection(HttpConflict, SlotTakenMessage)), store)
  {
  }

  /** Cancelled rows, soft-deleted rows and other doctors' rows never make
      the conflict query fire. */
  lemma ConflictIgnoresNonOccupyingRows(store: seq<Appointment>, a: Appointment, doctorId: nat, start: int, end: int)
    requires a.status == Cancelled || a.deletedAt.Some? || a.doctorId != doctorId
    ensures HasOverlap(store + [a], doctorId, start, end) == HasOverlap(store, doctorId, start, end)
  {
    var s := store + [a];
    if HasOverlap(s, doctorId, start, end) {
      var i :| 0 <= i < |s| && Occupies(s[i]) && s[i].doctorId == doctorId && Overlaps(s[i].start, s[i].end, start, end);
      assert i < |store| && s[i] == store[i];
    }
    if HasOverlap(store, doctorId, start, end) {
      var i :| 0 <= i < |store| && Occupies(store[i]) && store[i].doctorId == doctorId &&
        Overlaps(store[i].start, store[i].end, start, end);
      assert s[i] == store[i];
    }
  }

  /** `book` inserts exactly when every check passes and the unique index
      has room; the new row is scheduled, at version 1, without notes, and
      the reply is a 201 success. Otherwise the table is unchanged. */
  lemma BookCreatesIff(doctors: seq<Doctor>, store: seq<Appointment>, req: BookRequest, now: int)
    requires ValidRequest(req, now)
    ensures Book(doctors, store, req, now).outcome == Replied(Created) <==>
              PassesChecks(doctors, store, req) && !KeyTaken(store, BookedRow(req))
    ensures Book(doctors, store, req, now).outcome != Replied(Created) ==> Book(doctors, store, req, now).store == store
    ensures Created.Code() == HttpCreated && Created.success.GetArrayFormat().success
    ensures var row := BookedRow(req);
            row.status == Scheduled && row.version == 1 && row.notes.None? && row.end > row.start && Live(row) &&
            (req.end.None? ==> row.end == req.start + SlotDuration) && (req.end.Some? ==> row.end == req.end.value)
  {
    CreateMaterializes(req);
  }

  /** When every check passes but a row with the same doctor and start
      exists, even a cancelled or soft-deleted one, the insert fails on the
      unique index and the table is unchanged. */
  lemma BookHitsUniqueIndex(doctors: seq<Doctor>, store: seq<Appointment>, req: BookRequest, now: int)
    requires ValidRequest(req, now)
    requires PassesChecks(doctors, store, req)
    requires KeyTaken(store, BookedRow(req))
    ensures Book(doctors, store, req, now) == BookResult(StoreFailed(UniqueViolation(UniqueIndexName)), store)
  {
    CreateMaterializes(req);
  }
}
