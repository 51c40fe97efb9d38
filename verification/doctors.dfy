/** The Doctor model: its fixed working-hours table, the `isAvailableAt`
    check, the `active` scope and the full-name attribute. */
module Doctors {
  import opened Wrappers
  import opened Clock
  import Seqs

  datatype Doctor = Doctor(
    id: nat,
    name: string,
    specialization: string,
    email: Option<string>,
    phone: Option<string>,
    isActive: bool,
    deletedAt: Option<int>)

  /** A working day, as wall-clock minutes since midnight. */
  datatype Hours = Hours(start: int, end: int)

  const DayStart: int := 9 * 60
  const DayEnd: int := 17 * 60
  /** The latest start `isAvailableAt` accepts: 17:00 minus one slot. */
  const LastStart: int := DayEnd - SlotDuration

  /** The `working_hours` accessor. It ignores the doctor: every doctor works
      09:00 to 17:00 from Monday to Friday and has no weekend entry. */
  function WorkingHours(d: Doctor): (table: map<Weekday, Hours>)
    ensures forall w :: w in table <==> IsWeekday(w)
    ensures forall w :: w in table ==> table[w] == Hours(DayStart, DayEnd)
  {
    map[
      Monday := Hours(DayStart, DayEnd),
      Tuesday := Hours(DayStart, DayEnd),
      Wednesday := Hours(DayStart, DayEnd),
      Thursday := Hours(DayStart, DayEnd),
      Friday := Hours(DayStart, DayEnd)]
  }

  /** The table's entries are the strings "09:00" and "17:00", and a working
      day holds a whole number of 30-minute slots. */
  lemma WorkingHoursText(d: Doctor, w: Weekday)
    requires w in WorkingHours(d)
    ensures FormatHi(WorkingHours(d)[w].start) == "09:00"
    ensures FormatHi(WorkingHours(d)[w].end) == "17:00"
    ensures ParseHi("09:00") == Some(DayStart) && ParseHi("17:00") == Some(DayEnd)
    ensures (DayEnd - DayStart) % SlotDuration == 0
  {
  }

  /** `isAvailableAt($dateTime)` evaluated on date `today`: the bare times
      "09:00" and "17:00" are parsed onto today, and `between` is inclusive. */
  function IsAvailableAt(d: Doctor, t: int, today: int): (r: bool)
    ensures !d.isActive ==> !r
    ensures !IsWeekday(WeekdayOf(DayOf(t))) ==> !r
    ensures DayOf(t) != today ==> !r
    ensures r ==> DayStart <= TimeOfDay(t) <= LastStart
  {
    d.isActive && IsWeekday(WeekdayOf(DayOf(t))) && At(today, DayStart) <= t <= At(today, LastStart)
  }

  /** On its own date an active doctor is available exactly when a 30-minute
      appointment starting at `t` fits the working-hours table. */
  lemma {:induction false} AvailableAtMatchesTable(d: Doctor, t: int)
    requires d.isActive
    ensures IsAvailableAt(d, t, DayOf(t)) <==>
              var w := WeekdayOf(DayOf(t));
              w in WorkingHours(d) &&
              At(DayOf(t), WorkingHours(d)[w].start) <= t &&
              t + SlotDuration <= At(DayOf(t), WorkingHours(d)[w].end)
  {
    SplitAt(t);
  }

  /** `scopeActive`. */
  function Active(doctors: seq<Doctor>): (r: seq<Doctor>)
    ensures forall d :: d in r <==> d in doctors && d.isActive
  {
    Seqs.Filter(doctors, (d: Doctor) => d.isActive)
  }

  /** The `full_name_with_specialization` attribute: "{name} ({specialization})". */
  function FullNameWithSpecialization(d: Doctor): (r: string)
    ensures |r| == |d.name| + |d.specialization| + 3
    ensures r[..|d.name|] == d.name
    ensures r[|d.name|..|d.name| + 2] == " ("
    ensures r[|d.name| + 2..|r| - 1] == d.specialization
    ensures r[|r| - 1] == ')'
  {
    d.name + " (" + d.specialization + ")"
  }
}
