/** Time as whole minutes. A timestamp is the number of minutes since
    1970-01-01 00:00 (a Thursday) in the application's single time zone; a
    date is a day number on the same scale. Wall-clock `H:i` strings are
    minutes since midnight. */
module Clock {
  import opened Wrappers

  const MinutesPerDay: int := 1440
  const MinutesPerHour: int := 60
  /** The one appointment length of the system: a slot, the default booking
      window and the window `isAvailableAt` checks (`SLOT_DURATION` in both
      services). */
  const SlotDuration: int := 30

  /** The date part of a timestamp (what `whereDate` and `toDateString` see). */
  function DayOf(t: int): int {
    t / MinutesPerDay
  }

  /** Minutes since midnight of the timestamp's own date. */
  function TimeOfDay(t: int): (m: int)
    ensures 0 <= m < MinutesPerDay
  {
    t % MinutesPerDay
  }

  /** The timestamp at wall-clock time `tod` on date `day`
      (Carbon's `setTimeFromTimeString` on a copy of that date). */
  function At(day: int, tod: int): int {
    day * MinutesPerDay + tod
  }

  /** A timestamp splits into its date and its wall-clock time, and back. */
  lemma AtSplits(day: int, tod: int)
    requires 0 <= tod < MinutesPerDay
    ensures DayOf(At(day, tod)) == day
    ensures TimeOfDay(At(day, tod)) == tod
  {
  }

  lemma SplitAt(t: int)
    ensures At(DayOf(t), TimeOfDay(t)) == t
  {
  }

  datatype Weekday = Monday | Tuesday | Wednesday | Thursday | Friday | Saturday | Sunday

  /** The weekday of a date; day 0 (1970-01-01) was a Thursday. */
  function WeekdayOf(day: int): Weekday {
    var k := (day + 3) % 7;
    if k == 0 then Monday
    else if k == 1 then Tuesday
    else if k == 2 then Wednesday
    else if k == 3 then Thursday
    else if k == 4 then Friday
    else if k == 5 then Saturday
    else Sunday
  }

  /** Carbon's `isWeekday()`: Monday to Friday. */
  predicate IsWeekday(w: Weekday) {
    w != Saturday && w != Sunday
  }

  /** `strtolower($date->format('l'))`: the lower-case English day name. */
  function DayName(w: Weekday): string {
    match w
    case Monday => "monday"
    case Tuesday => "tuesday"
    case Wednesday => "wednesday"
    case Thursday => "thursday"
    case Friday => "friday"
    case Saturday => "saturday"
    case Sunday => "sunday"
  }

  /** The half-open overlap test shared by the availability filter and the
      booking conflict query: `[aStart, aEnd)` meets `[bStart, bEnd)`. */
  predicate Overlaps(aStart: int, aEnd: int, bStart: int, bEnd: int) {
    aStart < bEnd && aEnd > bStart
  }

  /** Overlap does not depend on which interval is named first, and intervals
      that only touch at an endpoint do not overlap. */
  lemma OverlapsSymmetric(aStart: int, aEnd: int, bStart: int, bEnd: int)
    ensures Overlaps(aStart, aEnd, bStart, bEnd) == Overlaps(bStart, bEnd, aStart, aEnd)
  {
  }

  lemma TouchingIsNotOverlap(aStart: int, aEnd: int, bStart: int, bEnd: int)
    requires aEnd == bStart || aStart == bEnd
    ensures !Overlaps(aStart, aEnd, bStart, bEnd)
  {
  }

  /** The character of a decimal digit. */
  function Digit(n: int): (c: char)
    requires 0 <= n < 10
    ensures '0' <= c <= '9'
  {
    (48 + n) as char
  }

  /** The value of a decimal digit character. */
  function DigitValue(c: char): (n: int)
    requires '0' <= c <= '9'
    ensures 0 <= n < 10
  {
    c as int - 48
  }

  /** Carbon's `format('H:i')`: zero-padded hours and minutes of the
      timestamp's wall-clock time. */
  function FormatHi(t: int): (s: string)
    ensures |s| == 5 && s[2] == ':'
  {
    var tod := TimeOfDay(t);
    var h := tod / MinutesPerHour;
    var m := tod % MinutesPerHour;
    [Digit(h / 10), Digit(h % 10), ':', Digit(m / 10), Digit(m % 10)]
  }

  predicate IsDigit(c: char) {
    '0' <= c <= '9'
  }

  /** Reads an `HH:MM` wall-clock string (00:00 to 23:59) as minutes since
      midnight; any other string is rejected. */
  function ParseHi(s: string): (r: Option<int>)
    ensures r.Some? ==> 0 <= r.value < MinutesPerDay
  {
    if |s| != 5 || s[2] != ':' || !IsDigit(s[0]) || !IsDigit(s[1]) || !IsDigit(s[3]) || !IsDigit(s[4]) then None
    else
      var h := DigitValue(s[0]) * 10 + DigitValue(s[1]);
      var m := DigitValue(s[3]) * 10 + DigitValue(s[4]);
      if h < 24 && m < 60 then Some(h * MinutesPerHour + m) else None
  }

  /** Parsing a formatted time gives back the wall-clock time. */
  lemma ParseFormatHi(t: int)
    ensures ParseHi(FormatHi(t)) == Some(TimeOfDay(t))
  {
    var tod := TimeOfDay(t);
    var h := tod / MinutesPerHour;
    var m := tod % MinutesPerHour;
    assert h < 24;
    assert (h / 10) * 10 + h % 10 == h;
    assert (m / 10) * 10 + m % 10 == m;
    assert h * MinutesPerHour + m == tod;
  }

  /** Formatting a parsed time gives back the very string that was parsed. */
  lemma FormatParseHi(s: string)
    requires ParseHi(s).Some?
    ensures FormatHi(ParseHi(s).value) == s
  {
    var h := DigitValue(s[0]) * 10 + DigitValue(s[1]);
    var m := DigitValue(s[3]) * 10 + DigitValue(s[4]);
    var tod := h * MinutesPerHour + m;
    assert TimeOfDay(tod) == tod;
    assert tod / MinutesPerHour == h && tod % MinutesPerHour == m;
    assert h / 10 == DigitValue(s[0]) && h % 10 == DigitValue(s[1]);
    assert m / 10 == DigitValue(s[3]) && m % 10 == DigitValue(s[4]);
    var f := FormatHi(tod);
    assert f[0] == s[0] && f[1] == s[1] && f[3] == s[3] && f[4] == s[4];
  }
}
