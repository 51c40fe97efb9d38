/** The `appointments` table as its migration defines it: which columns are
    required, the status enum and its default, the version default, the
    unique `(doctor_id, start_time)` index, and soft deletion. */
module AppointmentsTable {
  import opened Wrappers
  import opened Appointments

  /** Why the database refuses a row. */
  datatype DbError =
    | NotNullViolation(column: string)
    | InvalidEnumValue(column: string, value: string)
    | ValueTooLong(column: string)
    | OutOfRange(column: string)
    | UniqueViolation(index: string)

  const StatusDefault: Status := Scheduled
  const VersionDefault: nat := 1
  /** Width of a `string()` column: `varchar(255)`. */
  const MaxVarchar: nat := 255
  /** Largest value of an `unsignedInteger` column on PostgreSQL, where it is
      a signed 32-bit `integer`. */
  const MaxPgInteger: nat := 0x7FFF_FFFF
  const UniqueIndexName: string := "unique_doctor_appointment"

  /** An absent value, or a string a `varchar(255)` column accepts: at most
      255 characters, or longer with nothing but spaces past the 255th. */
  predicate FitsVarchar(s: Option<string>) {
    s.None? || |s.value| <= MaxVarchar || forall i :: MaxVarchar <= i < |s.value| ==> s.value[i] == ' '
  }

  /** What a `varchar(255)` column stores: the value cut to 255 characters.
      On an accepted value only spaces are cut off. */
  function StoreVarchar(s: string): (t: string)
    ensures |t| <= MaxVarchar && |t| <= |s| && t == s[..|t|]
    ensures |s| <= MaxVarchar ==> t == s
    ensures FitsVarchar(Some(s)) ==> forall i :: |t| <= i < |s| ==> s[i] == ' '
  {
    if |s| <= MaxVarchar then s else s[..MaxVarchar]
  }

  function StoreNullableVarchar(s: Option<string>): Option<string> {
    match s
    case None => None
    case Some(v) => Some(StoreVarchar(v))
  }

  /** The column rules an error may report: each error names a rule that
      the draft really breaks. */
  predicate Breaks(d: Draft, e: DbError) {
    match e
    case NotNullViolation(c) =>
      (c == "patient_name" && d.patientName.None?) ||
      (c == "start_time" && d.start.None?) ||
      (c == "end_time" && d.end.None?)
    case InvalidEnumValue(c, v) => c == "status" && d.status == Some(v) && ParseStatus(v).None?
    case ValueTooLong(c) =>
      (c == "patient_name" && !FitsVarchar(d.patientName)) ||
      (c == "patient_email" && !FitsVarchar(d.patientEmail)) ||
      (c == "patient_phone" && !FitsVarchar(d.patientPhone))
    case OutOfRange(c) => c == "version" && d.version.GetOr(VersionDefault) > MaxPgInteger
    case UniqueViolation(_) => false
  }

  /** Turns create attributes into a row the way the PostgreSQL columns do:
      the three patient strings must fit `varchar(255)`, where a value padded
      past 255 characters with spaces is cut to 255, and the version must fit
      the `integer` column (default 1), which are checked as the values are
      converted; then `patient_name`, `start_time` and `end_time` must be
      present and the status must be one of the enum values (default
      "scheduled"). Nullable columns stay null when absent, and a new row is
      never soft-deleted. */
  function Materialize(d: Draft): (r: Result<Appointment, DbError>)
    ensures r.Success? <==>
              && d.patientName.Some? && d.start.Some? && d.end.Some?
              && (d.status.Some? ==> ParseStatus(d.status.value).Some?)
              && FitsVarchar(d.patientName) && FitsVarchar(d.patientEmail) && FitsVarchar(d.patientPhone)
              && d.version.GetOr(VersionDefault) <= MaxPgInteger
    ensures r.Failure? ==> Breaks(d, r.error)
    ensures r.Success? ==>
              && r.value.doctorId == d.doctorId
              && d.patientName.Some? && r.value.patientName == StoreVarchar(d.patientName.value)
              && r.value.patientEmail == StoreNullableVarchar(d.patientEmail)
              && r.value.patientPhone == StoreNullableVarchar(d.patientPhone)
              && Some(r.value.start) == d.start
              && Some(r.value.end) == d.end
              && (d.status.None? ==> r.value.status == StatusDefault)
              && (d.status.Some? ==> StatusName(r.value.status) == d.status.value)
              && r.value.notes == d.notes
              && r.value.cancelledAt == d.cancelledAt
              && r.value.cancellationReason == d.cancellationReason
              && (d.version.None? ==> r.value.version == VersionDefault)
              && (d.version.Some? ==> r.value.version == d.version.value)
              && r.value.deletedAt.None?
  {
    if !FitsVarchar(d.patientName) then Failure(ValueTooLong("patient_name"))
    else if !FitsVarchar(d.patientEmail) then Failure(ValueTooLong("patient_email"))
    else if !FitsVarchar(d.patientPhone) then Failure(ValueTooLong("patient_phone"))
    else if d.version.GetOr(VersionDefault) > MaxPgInteger then Failure(OutOfRange("version"))
    else if d.patientName.None? then Failure(NotNullViolation("patient_name"))
    else if d.start.None? then Failure(NotNullViolation("start_time"))
    else if d.end.None? then Failure(NotNullViolation("end_time"))
    else if d.status.Some? && ParseStatus(d.status.value).None? then
      Failure(InvalidEnumValue("status", d.status.value))
    else
      var status := if d.status.Some? then ParseStatus(d.status.value).value else StatusDefault;
      Success(Appointment(
        d.doctorId, StoreVarchar(d.patientName.value),
        StoreNullableVarchar(d.patientEmail), StoreNullableVarchar(d.patientPhone),
        d.start.value, d.end.value, status, d.notes, d.cancelledAt,
        d.cancellationReason, d.version.GetOr(VersionDefault), None))
  }

  /** Two rows collide on the unique index when they share doctor and start,
      whatever their status and whether or not they are soft-deleted. */
  predicate SameSlotKey(a: Appointment, b: Appointment) {
    a.doctorId == b.doctorId && a.start == b.start
  }

  predicate KeyTaken(rows: seq<Appointment>, row: Appointment) {
    exists i :: 0 <= i < |rows| && SameSlotKey(rows[i], row)
  }

  /** The unique index holds: no two rows share `(doctor_id, start_time)`. */
  ghost predicate UniqueSlotKeys(rows: seq<Appointment>) {
    forall i, j :: 0 <= i < j < |rows| ==> !SameSlotKey(rows[i], rows[j])
  }

  /** Inserting a row: refused when its key is already taken by any row,
      cancelled and soft-deleted ones included; otherwise appended. */
  function Insert(rows: seq<Appointment>, row: Appointment): (r: Result<seq<Appointment>, DbError>)
    ensures r.Failure? <==> exists a :: a in rows && SameSlotKey(a, row)
    ensures r.Failure? ==> r.error == UniqueViolation(UniqueIndexName)
    ensures r.Success? ==> r.value == rows + [row]
  {
    if KeyTaken(rows, row) then Failure(UniqueViolation(UniqueIndexName)) else Success(rows + [row])
  }

  /** A successful insert keeps the unique index intact. */
  lemma InsertKeepsKeysUnique(rows: seq<Appointment>, row: Appointment)
    requires Insert(rows, row).Success?
    ensures UniqueSlotKeys(rows) ==> UniqueSlotKeys(Insert(rows, row).value)
  {
    if !UniqueSlotKeys(rows) {
      return;
    }
    var r := rows + [row];
    forall i, j | 0 <= i < j < |r| ensures !SameSlotKey(r[i], r[j]) {
      if j == |rows| {
        assert r[i] in rows;
      }
    }
  }

  /** `Appointment::create`: the `creating` hook, then the column rules, then
      the insert. */
  function Create(rows: seq<Appointment>, d: Draft): (r: Result<seq<Appointment>, DbError>)
    ensures r.Success? ==>
              Materialize(CreatingHook(d)).Success? && r.value == rows + [Materialize(CreatingHook(d)).value]
    ensures Materialize(CreatingHook(d)).Failure? ==> r == Failure(Materialize(CreatingHook(d)).error)
    ensures Materialize(CreatingHook(d)).Success? ==>
              && (r.Failure? <==> KeyTaken(rows, Materialize(CreatingHook(d)).value))
              && (r.Failure? ==> r.error == UniqueViolation(UniqueIndexName))
  {
    match Materialize(CreatingHook(d))
    case Failure(e) => Failure(e)
    case Success(row) => Insert(rows, row)
  }

  /** `delete()` under `SoftDeletes`: the row stays, marked by `deleted_at`. */
  function SoftDelete(rows: seq<Appointment>, i: nat, now: int): (r: seq<Appointment>)
    requires i < |rows|
    ensures |r| == |rows|
    ensures !Live(r[i]) && r[i].(deletedAt := rows[i].deletedAt) == rows[i]
    ensures forall j :: 0 <= j < |rows| && j != i ==> r[j] == rows[j]
  {
    rows[i := rows[i].(deletedAt := Some(now))]
  }

  /** A soft-deleted row drops out of every Eloquent query but still holds
      its key in the unique index. */
  lemma SoftDeletedRowStillHoldsKey(rows: seq<Appointment>, i: nat, now: int, row: Appointment)
    requires i < |rows|
    requires SameSlotKey(rows[i], row)
    ensures SoftDelete(rows, i, now)[i] !in WithoutTrashed(SoftDelete(rows, i, now))
    ensures Insert(SoftDelete(rows, i, now), row).Failure?
  {
    assert SoftDelete(rows, i, now)[i] in SoftDelete(rows, i, now);
  }
}
