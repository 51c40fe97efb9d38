/** `AvailabilityService`: tiles a doctor's working day into 30-minute slots
    and drops the ones an existing booking overlaps. */
module Availability {
  import opened Wrappers
  import opened Clock
  import opened Appointments
  import opened Doctors
  import opened Responses
  import Seqs

  /** A candidate appointment interval `[start, end)`, in timestamps. */
  datatype Slot = Slot(start: int, end: int)

  function SlotStart(s: Slot): int {
    s.start
  }

  /** `generateSlots`, one loop iteration per call: from `cursor`, emit a
      30-minute slot while the cursor is still before `dayEnd`. The last slot
      may run past `dayEnd`; a cursor at or after `dayEnd` emits nothing. */
  function GenerateSlots(cursor: int, dayEnd: int): (slots: seq<Slot>)
    ensures forall k :: 0 <= k < |slots| ==>
              slots[k] == Slot(cursor + SlotDuration * k, cursor + SlotDuration * k + SlotDuration)
    ensures forall k :: 0 <= k < |slots| ==> slots[k].start < dayEnd
    ensures cursor + SlotDuration * |slots| >= dayEnd
    decreases dayEnd - cursor
  {
    if cursor < dayEnd then [Slot(cursor, cursor + SlotDuration)] + GenerateSlots(cursor + SlotDuration, dayEnd)
    else []
  }

  /** A slot starts at `dayStart + 30k` exactly for the k with that start
      strictly before `dayEnd`; so there are ceil((dayEnd - dayStart) / 30)
      slots, and none when `dayStart >= dayEnd`. */
  lemma {:induction false} SlotCount(dayStart: int, dayEnd: int)
    ensures forall k :: 0 <= k ==> (k < |GenerateSlots(dayStart, dayEnd)| <==> dayStart + SlotDuration * k < dayEnd)
    ensures |GenerateSlots(dayStart, dayEnd)| == if dayStart < dayEnd then (dayEnd - dayStart + SlotDuration - 1) / SlotDuration else 0
  {
    var slots := GenerateSlots(dayStart, dayEnd);
    var n := |slots|;
    if n > 0 {
      assert slots[n - 1].start < dayEnd;
    }
    forall k | 0 <= k
      ensures k < n <==> dayStart + SlotDuration * k < dayEnd
    {
      if k < n {
        assert slots[k].start < dayEnd;
      }
    }
  }

  /** The slots tile the day without gaps: the first starts at `dayStart`,
      each is 30 minutes wide and the next starts where the previous ended. */
  lemma SlotsContiguous(dayStart: int, dayEnd: int)
    requires dayStart < dayEnd
    ensures var slots := GenerateSlots(dayStart, dayEnd);
            && |slots| > 0 && slots[0].start == dayStart
            && (forall k :: 0 <= k < |slots| ==> slots[k].end == slots[k].start + SlotDuration)
            && (forall k :: 0 <= k < |slots| - 1 ==> slots[k + 1].start == slots[k].end)
            && Seqs.StrictlyIncreasing(slots, SlotStart)
  {
  }

  /** When the working day is not a whole number of slots the last slot runs
      past its end; otherwise it ends exactly there. */
  lemma {:induction false} LastSlotEnd(dayStart: int, dayEnd: int)
    requires dayStart < dayEnd
    ensures var slots := GenerateSlots(dayStart, dayEnd);
            |slots| > 0 &&
            ((dayEnd - dayStart) % SlotDuration == 0 <==> slots[|slots| - 1].end == dayEnd) &&
            ((dayEnd - dayStart) % SlotDuration != 0 <==> slots[|slots| - 1].end > dayEnd)
  {
    SlotCount(dayStart, dayEnd);
  }

  /** `getBookedAppointments`: the doctor's visible, non-cancelled rows that
      start on `date`. */
  function BookedAppointments(store: seq<Appointment>, doctorId: nat, date: int): (r: seq<Appointment>)
    ensures forall a :: a in r <==> a in store && Occupies(a) && a.doctorId == doctorId && DayOf(a.start) == date
  {
    NotCancelled(OnDate(ForDoctor(WithoutTrashed(store), doctorId), date))
  }

  /** Some booking overlaps the slot (the inner `foreach` returning false). */
  predicate Blocked(slot: Slot, booked: seq<Appointment>) {
    exists i :: 0 <= i < |booked| && Overlaps(slot.start, slot.end, booked[i].start, booked[i].end)
  }

  /** The filter callback: no booking overlaps the slot. */
  function Unblocked(booked: seq<Appointment>): Slot -> bool {
    (s: Slot) => !Blocked(s, booked)
  }

  /** The `filter()->values()` part of `filterAvailableSlots`. */
  function FreeSlots(all: seq<Slot>, booked: seq<Appointment>): (free: seq<Slot>)
    ensures forall s :: s in free <==> s in all && forall a :: a in booked ==> !Overlaps(s.start, s.end, a.start, a.end)
    ensures Seqs.StrictlyIncreasing(all, SlotStart) ==> Seqs.StrictlyIncreasing(free, SlotStart)
  {
    Seqs.FilterKeepsOrderIf(all, Unblocked(booked), SlotStart);
    Seqs.Filter(all, Unblocked(booked))
  }

  /** Without bookings nothing is filtered out. */
  lemma FreeSlotsWithoutBookings(all: seq<Slot>)
    ensures FreeSlots(all, []) == all
  {
    Seqs.FilterKeepsAll(all, Unblocked([]));
  }

  /** One slot as the API shows it: wall-clock `H:i` strings. */
  datatype SlotView = SlotView(startTime: string, endTime: string)

  /** The `map()` part of `filterAvailableSlots`: each slot's times rendered
      as `H:i`; reading them back gives the slot's wall-clock times. */
  function RenderSlots(free: seq<Slot>): (views: seq<SlotView>)
    ensures |views| == |free|
    ensures forall i :: 0 <= i < |views| ==>
              ParseHi(views[i].startTime) == Some(TimeOfDay(free[i].start)) &&
              ParseHi(views[i].endTime) == Some(TimeOfDay(free[i].end))
  {
    RenderedTimesParse(free);
    seq(|free|, i requires 0 <= i < |free| => SlotView(FormatHi(free[i].start), FormatHi(free[i].end)))
  }

  lemma RenderedTimesParse(free: seq<Slot>)
    ensures forall i :: 0 <= i < |free| ==>
              ParseHi(FormatHi(free[i].start)) == Some(TimeOfDay(free[i].start)) &&
              ParseHi(FormatHi(free[i].end)) == Some(TimeOfDay(free[i].end))
  {
    forall i | 0 <= i < |free|
      ensures ParseHi(FormatHi(free[i].start)) == Some(TimeOfDay(free[i].start))
      ensures ParseHi(FormatHi(free[i].end)) == Some(TimeOfDay(free[i].end))
    {
      ParseFormatHi(free[i].start);
      ParseFormatHi(free[i].end);
    }
  }

  /** The `id`, `name` and `specialization` the response echoes. */
  datatype DoctorSummary = DoctorSummary(id: nat, name: string, specialization: string)

  function Summary(d: Doctor): DoctorSummary {
    DoctorSummary(d.id, d.name, d.specialization)
  }

  /** What `getAvailableSlots` produces: an early `abort` with a JSON body
      `{message, data: []}` and an HTTP status, or the slot listing. */
  datatype AvailabilityOutcome =
    | Aborted(status: int, message: string)
    | Listed(doctor: DoctorSummary, date: int, slots: seq<SlotView>)

  const InactiveMessage: string := "Doctor is not currently active."

  function NoHoursMessage(w: Weekday): string {
    "Doctor is not available on " + DayName(w) + "."
  }

  /** The open slots of a working date, before rendering: the generated
      slots of that day's hours that no booking of the doctor on that date
      overlaps, in chronological order. */
  function OpenSlots(doctor: Doctor, date: int, store: seq<Appointment>): (r: seq<Slot>)
    requires WeekdayOf(date) in WorkingHours(doctor)
    ensures forall s :: s in r <==>
              s in GenerateSlots(At(date, DayStart), At(date, DayEnd)) &&
              forall a :: a in store && Occupies(a) && a.doctorId == doctor.id && DayOf(a.start) == date ==>
                !Overlaps(s.start, s.end, a.start, a.end)
    ensures Seqs.StrictlyIncreasing(r, SlotStart)
  {
    SlotsContiguous(At(date, DayStart), At(date, DayEnd));
    var hours := WorkingHours(doctor)[WeekdayOf(date)];
    FreeSlots(GenerateSlots(At(date, hours.start), At(date, hours.end)), BookedAppointments(store, doctor.id, date))
  }

  /** `getAvailableSlots`. An inactive doctor is refused with 422 whatever the
      date and bookings; a weekend date gives 200 with a message and no slots;
      otherwise the open slots of that date are listed. */
  function GetAvailableSlots(doctor: Doctor, date: int, store: seq<Appointment>): (r: AvailabilityOutcome)
    ensures !doctor.isActive ==> r == Aborted(HttpUnprocessable, InactiveMessage)
    ensures doctor.isActive && !IsWeekday(WeekdayOf(date)) ==>
              r == Aborted(HttpOk, "Doctor is not available on " + DayName(WeekdayOf(date)) + ".")
    ensures doctor.isActive && IsWeekday(WeekdayOf(date)) ==>
              r.Listed? && r.doctor == DoctorSummary(doctor.id, doctor.name, doctor.specialization) &&
              r.date == date && r.slots == RenderSlots(OpenSlots(doctor, date, store))
  {
    if !doctor.isActive then Aborted(HttpUnprocessable, InactiveMessage)
    else
      var day := WeekdayOf(date);
      var table := WorkingHours(doctor);
      if day !in table then Aborted(HttpOk, NoHoursMessage(day))
      else Listed(Summary(doctor), date, RenderSlots(OpenSlots(doctor, date, store)))
  }

  // ----- properties of the listing on a working day -----

  /** The k-th 30-minute slot of the 09:00 working day on `date`. */
  function GridSlot(date: int, k: int): Slot {
    Slot(At(date, DayStart) + SlotDuration * k, At(date, DayStart) + SlotDuration * k + SlotDuration)
  }

  /** A row that makes slot `s` of `date` unavailable for `doctorId`. */
  predicate BlocksSlot(a: Appointment, doctorId: nat, date: int, s: Slot) {
    Occupies(a) && a.doctorId == doctorId && DayOf(a.start) == date && Overlaps(s.start, s.end, a.start, a.end)
  }

  /** A working day is tiled into exactly 16 slots, 09:00-09:30 to 16:30-17:00. */
  lemma {:induction false} WorkingDaySlots(date: int)
    ensures var slots := GenerateSlots(At(date, DayStart), At(date, DayEnd));
            |slots| == 16 && forall k :: 0 <= k < 16 ==> slots[k] == GridSlot(date, k)
  {
    SlotCount(At(date, DayStart), At(date, DayEnd));
  }

  /** On a working day the listing is in chronological order and every
      listed slot is one of the 16 grid slots of that date. */
  lemma {:induction false} OpenSlotsOnGrid(doctor: Doctor, date: int, store: seq<Appointment>)
    requires IsWeekday(WeekdayOf(date))
    ensures WeekdayOf(date) in WorkingHours(doctor)
    ensures Seqs.StrictlyIncreasing(OpenSlots(doctor, date, store), SlotStart)
    ensures forall s :: s in OpenSlots(doctor, date, store) ==> exists k :: 0 <= k < 16 && s == GridSlot(date, k)
  {
    var slots := GenerateSlots(At(date, DayStart), At(date, DayEnd));
    WorkingDaySlots(date);
    SlotsContiguous(At(date, DayStart), At(date, DayEnd));
    forall s | s in OpenSlots(doctor, date, store) ensures exists k :: 0 <= k < 16 && s == GridSlot(date, k) {
      var k :| 0 <= k < |slots| && slots[k] == s;
    }
  }

  /** A grid slot of a working day is listed exactly when no visible
      non-cancelled booking of that doctor starting that day overlaps it. */
  lemma {:induction false} GridSlotListedIffUnblocked(doctor: Doctor, date: int, store: seq<Appointment>, k: int)
    requires IsWeekday(WeekdayOf(date)) && 0 <= k < 16
    ensures WeekdayOf(date) in WorkingHours(doctor)
    ensures GridSlot(date, k) in OpenSlots(doctor, date, store) <==>
              forall a :: a in store ==> !BlocksSlot(a, doctor.id, date, GridSlot(date, k))
  {
    var slots := GenerateSlots(At(date, DayStart), At(date, DayEnd));
    var booked := BookedAppointments(store, doctor.id, date);
    var g := GridSlot(date, k);
    WorkingDaySlots(date);
    assert slots[k] == g;
    assert g in slots;
    assert OpenSlots(doctor, date, store) == FreeSlots(slots, booked);
    if forall a :: a in store ==> !BlocksSlot(a, doctor.id, date, g) {
      forall a | a in booked ensures !Overlaps(g.start, g.end, a.start, a.end) {
        assert a in store;
      }
    } else {
      var a :| a in store && BlocksSlot(a, doctor.id, date, g);
      assert a in booked;
    }
  }

  /** No listed slot overlaps a visible non-cancelled booking of the doctor
      that starts on that date. */
  lemma ListedSlotsAreFree(doctor: Doctor, date: int, store: seq<Appointment>, s: Slot, a: Appointment)
    requires IsWeekday(WeekdayOf(date))
    requires s in OpenSlots(doctor, date, store)
    requires a in store && Occupies(a) && a.doctorId == doctor.id && DayOf(a.start) == date
    ensures !Overlaps(s.start, s.end, a.start, a.end)
    ensures At(date, DayStart) <= s.start && s.end <= At(date, DayEnd)
  {
    OpenSlotsOnGrid(doctor, date, store);
    var k :| 0 <= k < 16 && s == GridSlot(date, k);
    GridSlotListedIffUnblocked(doctor, date, store, k);
    assert !BlocksSlot(a, doctor.id, date, s);
  }

  /** Adding a booking that only touches a grid slot at an endpoint never
      changes whether that slot is listed, whatever else is booked that day. */
  lemma TouchingBookingKeepsSlot(doctor: Doctor, date: int, store: seq<Appointment>, k: int, a: Appointment)
    requires IsWeekday(WeekdayOf(date)) && 0 <= k < 16
    requires a.end == GridSlot(date, k).start || a.start == GridSlot(date, k).end
    ensures GridSlot(date, k) in OpenSlots(doctor, date, store + [a]) <==>
            GridSlot(date, k) in OpenSlots(doctor, date, store)
  {
    var g := GridSlot(date, k);
    GridSlotListedIffUnblocked(doctor, date, store, k);
    GridSlotListedIffUnblocked(doctor, date, store + [a], k);
    TouchingIsNotOverlap(g.start, g.end, a.start, a.end);
    assert !BlocksSlot(a, doctor.id, date, g);
    assert forall b :: b in store + [a] <==> b in store || b == a;
  }
}
