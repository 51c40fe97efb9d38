/** Properties that tie the availability listing to the booking transition,
    and worked scenarios on a concrete Monday. */
module Engine {
  import opened Wrappers
  import opened Clock
  import opened Appointments
  import opened AppointmentsTable
  import opened Doctors
  import opened Responses
  import opened Availability
  import opened Booking

  /** Every row ends no later than midnight after the day it starts. */
  ghost predicate DayContained(rows: seq<Appointment>) {
    forall a :: a in rows ==> a.end <= At(DayOf(a.start) + 1, 0)
  }

  /** `book` only inserts windows inside one working day, so it keeps the
      table day-contained. */
  lemma BookKeepsDayContained(doctors: seq<Doctor>, store: seq<Appointment>, req: BookRequest, now: int)
    requires ValidRequest(req, now)
    requires DayContained(store)
    ensures DayContained(Book(doctors, store, req, now).store)
  {
    BookCreatesIff(doctors, store, req, now);
    var r := Book(doctors, store, req, now);
    if r.outcome == Replied(Created) {
      forall a | a in r.store ensures a.end <= At(DayOf(a.start) + 1, 0) {
        if a !in store {
          assert a == BookedRow(req);
          SplitAt(req.start);
        }
      }
    }
  }

  /** A grid slot of a working day starts on that day. */
  lemma GridSlotOnDate(date: int, k: int)
    requires 0 <= k < 16
    ensures DayOf(GridSlot(date, k).start) == date
    ensures GridSlot(date, k).end == GridSlot(date, k).start + SlotDuration
  {
    AtSplits(date, DayStart + SlotDuration * k);
  }

  /** On a day-contained table, the conflict query sees nothing at a listed
      slot: rows of the same date were filtered by the listing, and rows of
      other dates end before the slot or start after it. */
  lemma {:induction false} ListedSlotHasNoConflict(doctor: Doctor, date: int, store: seq<Appointment>, s: Slot)
    requires IsWeekday(WeekdayOf(date))
    requires s in OpenSlots(doctor, date, store)
    requires DayContained(store)
    ensures !HasOverlap(store, doctor.id, s.start, s.end)
  {
    OpenSlotsOnGrid(doctor, date, store);
    var k :| 0 <= k < 16 && s == GridSlot(date, k);
    GridSlotOnDate(date, k);
    forall i | 0 <= i < |store| && Occupies(store[i]) && store[i].doctorId == doctor.id
      ensures !Overlaps(store[i].start, store[i].end, s.start, s.end)
    {
      var a := store[i];
      assert a in store;
      SplitAt(a.start);
      if DayOf(a.start) == date {
        ListedSlotsAreFree(doctor, date, store, s, a);
      } else if DayOf(a.start) < date {
        assert a.end <= At(date, 0);
      } else {
        assert a.start >= At(date + 1, 0);
      }
    }
  }

  /** A slot the listing shows for a future time can be booked with the
      default 30-minute end: the working-hours check and the conflict query
      both pass, so `book` either inserts or, when an old cancelled or
      deleted row holds the same start, fails on the unique index. */
  lemma {:induction false} ListedSlotIsBookable(
    doctors: seq<Doctor>, store: seq<Appointment>, doctor: Doctor, date: int, s: Slot, name: string, now: int)
    requires FindDoctor(doctors, doctor.id) == Some(doctor) && doctor.isActive
    requires IsWeekday(WeekdayOf(date))
    requires s in OpenSlots(doctor, date, store)
    requires s.start > now && |name| <= 255
    requires DayContained(store)
    ensures var r := Book(doctors, store, BookRequest(doctor.id, name, s.start, None, None, None, None), now);
            r.outcome == Replied(Created) || r.outcome == StoreFailed(UniqueViolation(UniqueIndexName))
  {
    var req := BookRequest(doctor.id, name, s.start, None, None, None, None);
    OpenSlotsOnGrid(doctor, date, store);
    var k :| 0 <= k < 16 && s == GridSlot(date, k);
    GridSlotOnDate(date, k);
    ListedSlotHasNoConflict(doctor, date, store, s);
    assert EndTime(req) == s.end;
    assert DayOf(req.start) == date;
    assert At(date, DayStart) <= req.start && EndTime(req) <= At(date, DayEnd);
    assert PassesChecks(doctors, store, req);
    assert ValidRequest(req, now);
    if KeyTaken(store, BookedRow(req)) {
      BookHitsUniqueIndex(doctors, store, req, now);
    } else {
      BookCreatesIff(doctors, store, req, now);
    }
  }

  // ----- scenarios on Monday 1970-01-05 (day 4) -----

  const Monday4: int := 4
  const Saturday2: int := 2
  const DrA: Doctor := Doctor(1, "Ada", "Cardiology", None, None, true, None)
  const DrAInactive: Doctor := DrA.(isActive := false)

  function Row(doctorId: nat, start: int, end: int, status: Status): Appointment {
    Appointment(doctorId, "Jane Doe", None, None, start, end, status, None, None, None, 1, None)
  }

  function Request(doctorId: nat, start: int): BookRequest {
    BookRequest(doctorId, "Jane Doe", start, None, None, None, None)
  }

  /** With no bookings a working Monday lists all 16 slots, 09:00 to 16:30. */
  lemma ScenarioEmptyMonday()
    ensures WeekdayOf(Monday4) == Monday
    ensures OpenSlots(DrA, Monday4, []) == GenerateSlots(At(Monday4, DayStart), At(Monday4, DayEnd))
    ensures |OpenSlots(DrA, Monday4, [])| == 16
    ensures FormatHi(OpenSlots(DrA, Monday4, [])[0].start) == "09:00"
    ensures FormatHi(OpenSlots(DrA, Monday4, [])[15].start) == "16:30"
  {
    var slots := GenerateSlots(At(Monday4, DayStart), At(Monday4, DayEnd));
    var booked := BookedAppointments([], DrA.id, Monday4);
    assert booked == [];
    assert OpenSlots(DrA, Monday4, []) == FreeSlots(slots, []);
    FreeSlotsWithoutBookings(slots);
    WorkingDaySlots(Monday4);
    assert slots[0] == GridSlot(Monday4, 0) && slots[15] == GridSlot(Monday4, 15);
    assert GridSlot(Monday4, 0).start == At(Monday4, 540);
    assert GridSlot(Monday4, 15).start == At(Monday4, 990);
    AtSplits(Monday4, 540);
    AtSplits(Monday4, 990);
    assert FormatHi(At(Monday4, 540)) == "09:00";
    assert FormatHi(At(Monday4, 990)) == "16:30";
  }

  /** A 10:00-10:30 booking removes exactly the 10:00 slot; its neighbours,
      which only touch it, stay listed. */
  lemma ScenarioOneBooking()
    ensures var store := [Row(1, At(Monday4, 600), At(Monday4, 630), Scheduled)];
            GridSlot(Monday4, 2) !in OpenSlots(DrA, Monday4, store) &&
            forall k :: 0 <= k < 16 && k != 2 ==> GridSlot(Monday4, k) in OpenSlots(DrA, Monday4, store)
  {
    var store := [Row(1, At(Monday4, 600), At(Monday4, 630), Scheduled)];
    var a := store[0];
    AtSplits(Monday4, 600);
    GridSlotListedIffUnblocked(DrA, Monday4, store, 2);
    assert BlocksSlot(a, 1, Monday4, GridSlot(Monday4, 2));
    forall k | 0 <= k < 16 && k != 2 ensures GridSlot(Monday4, k) in OpenSlots(DrA, Monday4, store) {
      GridSlotListedIffUnblocked(DrA, Monday4, store, k);
    }
  }

  /** Booking 10:00 against that booking is a 409; booking 11:00 creates a
      scheduled row ending at 11:30. */
  lemma ScenarioConflictAndSuccess()
    ensures var store := [Row(1, At(Monday4, 600), At(Monday4, 630), Scheduled)];
            Book([DrA], store, Request(1, At(Monday4, 600)), 0) ==
              BookResult(Replied(Rejection(HttpConflict, SlotTakenMessage)), store)
    ensures var store := [Row(1, At(Monday4, 600), At(Monday4, 630), Scheduled)];
            Book([DrA], store, Request(1, At(Monday4, 660)), 0) ==
              BookResult(Replied(Created), store + [Row(1, At(Monday4, 660), At(Monday4, 690), Scheduled)])
  {
    var store := [Row(1, At(Monday4, 600), At(Monday4, 630), Scheduled)];
    AtSplits(Monday4, 600);
    AtSplits(Monday4, 660);
    assert Occupies(store[0]) && Overlaps(store[0].start, store[0].end, At(Monday4, 600), At(Monday4, 630));
    assert HasOverlap(store, 1, At(Monday4, 600), At(Monday4, 630));
    BookCreatesIff([DrA], store, Request(1, At(Monday4, 660)), 0);
  }

  /** An inactive doctor is refused at any time; 08:30 is before the day. */
  lemma ScenarioRejections(start: int)
    requires start > 0
    ensures Book([DrAInactive], [], Request(1, start), 0).outcome == Replied(Rejection(HttpForbidden, InactiveDoctorMessage))
    ensures Book([DrA], [], Request(1, At(Monday4, 510)), 0).outcome == Replied(Rejection(HttpForbidden, OutsideHoursMessage))
  {
    AtSplits(Monday4, 510);
  }

  /** On a Saturday an active doctor's booking crashes, while the listing
      for that date answers 200 with a message. */
  lemma WeekendBookingCrashes()
    ensures WeekdayOf(Saturday2) == Saturday
    ensures Book([DrA], [], Request(1, At(Saturday2, 600)), 0).outcome == Crashed
    ensures GetAvailableSlots(DrA, Saturday2, []) == Aborted(HttpOk, "Doctor is not available on saturday.")
  {
    AtSplits(Saturday2, 600);
  }

  /** After a 10:00 booking is cancelled the 10:00 slot is listed again, yet
      booking it fails: the cancelled row still holds the unique index. */
  lemma CancelledSlotListedButNotBookable()
    ensures var store := [Row(1, At(Monday4, 600), At(Monday4, 630), Cancelled)];
            GridSlot(Monday4, 2) in OpenSlots(DrA, Monday4, store) &&
            Book([DrA], store, Request(1, At(Monday4, 600)), 0).outcome == StoreFailed(UniqueViolation(UniqueIndexName))
  {
    var store := [Row(1, At(Monday4, 600), At(Monday4, 630), Cancelled)];
    AtSplits(Monday4, 600);
    GridSlotListedIffUnblocked(DrA, Monday4, store, 2);
    var req := Request(1, At(Monday4, 600));
    assert SameSlotKey(store[0], BookedRow(req));
    assert !HasOverlap(store, 1, req.start, EndTime(req));
    BookHitsUniqueIndex([DrA], store, req, 0);
  }
}
