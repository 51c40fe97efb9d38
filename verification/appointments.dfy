/** The Appointment model: its status vocabulary, the attributes a row
    carries, the `creating`/`updating` lifecycle hooks and the query scopes. */
module Appointments {
  import opened Wrappers
  import opened Clock
  import Seqs

  /** The five statuses an appointment can be in. */
  datatype Status = Scheduled | Confirmed | Completed | Cancelled | NoShow

  /** The status constants, as stored in the database. */
  function StatusName(s: Status): string {
    match s
    case Scheduled => "scheduled"
    case Confirmed => "confirmed"
    case Completed => "completed"
    case Cancelled => "cancelled"
    case NoShow => "no_show"
  }

  /** Reads a stored status string; anything outside the enum is rejected. */
  function ParseStatus(name: string): (r: Option<Status>)
    ensures r.Some? ==> StatusName(r.value) == name
  {
    if name == "scheduled" then Some(Scheduled)
    else if name == "confirmed" then Some(Confirmed)
    else if name == "completed" then Some(Completed)
    else if name == "cancelled" then Some(Cancelled)
    else if name == "no_show" then Some(NoShow)
    else None
  }

  /** Every status name reads back as that status. */
  lemma ParseStatusName(s: Status)
    ensures ParseStatus(StatusName(s)) == Some(s)
  {
  }

  /** The `$statuses` list. */
  const AllStatuses: seq<Status> := [Scheduled, Confirmed, Completed, Cancelled, NoShow]

  /** The list names every status exactly once. */
  lemma AllStatusesComplete()
    ensures forall s: Status :: s in AllStatuses
    ensures forall i, j :: 0 <= i < j < |AllStatuses| ==> StatusName(AllStatuses[i]) != StatusName(AllStatuses[j])
  {
    forall s: Status ensures s in AllStatuses {
      match s
      case Scheduled => assert AllStatuses[0] == s;
      case Confirmed => assert AllStatuses[1] == s;
      case Completed => assert AllStatuses[2] == s;
      case Cancelled => assert AllStatuses[3] == s;
      case NoShow => assert AllStatuses[4] == s;
    }
  }

  /** One row of the `appointments` table. Times are timestamps in minutes;
      `deletedAt` is the soft-delete marker. */
  datatype Appointment = Appointment(
    doctorId: nat,
    patientName: string,
    patientEmail: Option<string>,
    patientPhone: Option<string>,
    start: int,
    end: int,
    status: Status,
    notes: Option<string>,
    cancelledAt: Option<int>,
    cancellationReason: Option<string>,
    version: nat,
    deletedAt: Option<int>)

  /** The attributes handed to `Appointment::create`, before the `creating`
      hook and the column defaults have filled the gaps. The status is still
      a raw string here. */
  datatype Draft = Draft(
    doctorId: nat,
    patientName: Option<string>,
    patientEmail: Option<string>,
    patientPhone: Option<string>,
    start: Option<int>,
    end: Option<int>,
    status: Option<string>,
    notes: Option<string>,
    cancelledAt: Option<int>,
    cancellationReason: Option<string>,
    version: Option<nat>)

  /** The `creating` hook: a missing end time becomes start + 30 minutes (when
      there is a start), and a falsy status becomes "scheduled". */
  function CreatingHook(d: Draft): (r: Draft)
    ensures d.end.Some? ==> r.end == d.end
    ensures d.end.None? && d.start.Some? ==> r.end == Some(d.start.value + SlotDuration)
    ensures d.start.None? ==> r.end == d.end
    ensures Truthy(d.status) ==> r.status == d.status
    ensures !Truthy(d.status) ==> r.status == Some(StatusName(Scheduled))
    ensures r.(end := d.end, status := d.status) == d
  {
    var withEnd :=
      if d.end.None? && d.start.Some? then d.(end := Some(d.start.value + SlotDuration)) else d;
    if !Truthy(withEnd.status) then withEnd.(status := Some(StatusName(Scheduled))) else withEnd
  }

  /** Running the hook a second time changes nothing: after it, the end time
      is present whenever the start is, and the status is truthy. */
  lemma CreatingHookIdempotent(d: Draft)
    ensures CreatingHook(CreatingHook(d)) == CreatingHook(d)
    ensures CreatingHook(d).start.Some? ==> CreatingHook(d).end.Some?
    ensures Truthy(CreatingHook(d).status)
  {
  }

  /** The `updating` hook. `original` is the row as loaded and `next` the row
      with the pending changes; when the status is dirty the version is bumped
      and a change to cancelled without a cancellation time stamps `now`. */
  function UpdatingHook(original: Appointment, next: Appointment, now: int): (r: Appointment)
    ensures original.status == next.status ==> r == next
    ensures original.status != next.status ==> r.version == next.version + 1
    ensures original.status != next.status && next.status == Cancelled && next.cancelledAt.None? ==>
              r.cancelledAt == Some(now)
    ensures next.cancelledAt.Some? ==> r.cancelledAt == next.cancelledAt
    ensures next.status != Cancelled ==> r.cancelledAt == next.cancelledAt
    ensures r.(version := next.version, cancelledAt := next.cancelledAt) == next
  {
    if original.status != next.status then
      var stamped :=
        if next.status == Cancelled && next.cancelledAt.None? then next.(cancelledAt := Some(now)) else next;
      stamped.(version := stamped.version + 1)
    else next
  }

  /** For an update that leaves the version column alone, the version grows
      by exactly one precisely when the status changes, and never otherwise. */
  lemma VersionBumpsIffStatusChanges(original: Appointment, next: Appointment, now: int)
    requires next.version == original.version
    ensures UpdatingHook(original, next, now).version == original.version + 1 <==> original.status != next.status
    ensures UpdatingHook(original, next, now).version == original.version <==> original.status == next.status
  {
  }

  // ----- query scopes -----

  /** The `SoftDeletes` global scope: rows that have not been soft-deleted. */
  predicate Live(a: Appointment) {
    a.deletedAt.None?
  }

  /** The condition of `scopeNotCancelled`. */
  predicate NotCancelledRow(a: Appointment) {
    a.status != Cancelled
  }

  /** A row that occupies its doctor's time: visible and not cancelled. */
  predicate Occupies(a: Appointment) {
    Live(a) && NotCancelledRow(a)
  }

  function WithoutTrashed(rows: seq<Appointment>): (r: seq<Appointment>)
    ensures forall a :: a in r <==> a in rows && a.deletedAt.None?
  {
    Seqs.Filter(rows, Live)
  }

  /** `scopeNotCancelled`. */
  function NotCancelled(rows: seq<Appointment>): (r: seq<Appointment>)
    ensures forall a :: a in r <==> a in rows && a.status != Cancelled
  {
    Seqs.Filter(rows, NotCancelledRow)
  }

  /** `completed` and `no_show` rows survive `notCancelled`, so they keep
      occupying their doctor's time. */
  lemma NotCancelledKeepsFinishedRows(rows: seq<Appointment>, a: Appointment)
    requires a in rows
    requires a.status in {Scheduled, Confirmed, Completed, NoShow}
    ensures a in NotCancelled(rows)
  {
  }

  predicate IsUpcoming(a: Appointment, now: int) {
    a.start > now && (a.status == Scheduled || a.status == Confirmed)
  }

  /** `scopeUpcoming`: rows starting strictly after `now` that are still
      scheduled or confirmed. */
  function Upcoming(rows: seq<Appointment>, now: int): (r: seq<Appointment>)
    ensures forall a :: a in r <==> a in rows && a.start > now && a.status in {Scheduled, Confirmed}
  {
    Seqs.Filter(rows, (a: Appointment) => IsUpcoming(a, now))
  }

  /** `scopeOnDate`: rows whose start falls on `date`. */
  function OnDate(rows: seq<Appointment>, date: int): (r: seq<Appointment>)
    ensures forall a :: a in r <==> a in rows && DayOf(a.start) == date
  {
    Seqs.Filter(rows, (a: Appointment) => DayOf(a.start) == date)
  }

  /** `scopeForDoctor`: rows of one doctor. */
  function ForDoctor(rows: seq<Appointment>, doctorId: nat): (r: seq<Appointment>)
    ensures forall a :: a in r <==> a in rows && a.doctorId == doctorId
  {
    Seqs.Filter(rows, (a: Appointment) => a.doctorId == doctorId)
  }
}
