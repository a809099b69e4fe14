/** JavaScript `Date` values as far as the core uses them: the time value a
    `Date` holds (milliseconds since 1 January 1970 UTC, or invalid),
    `TimeClip`, and `Date.prototype.toISOString`, whose text is proved to
    determine the time value (a parser gives it back). */
module JsDate {
  import opened Common
  import opened JsValues

  const MsPerSecond: int := 1000
  const MsPerMinute: int := 60000
  const MsPerHour: int := 3600000
  const MsPerDay: int := 86400000

  /** The largest magnitude of a valid time value: 8.64e15 ms, that is
      100,000,000 days either side of the epoch. */
  const MaxTime: int := 8640000000000000

  datatype TimeValue = InvalidDate | TimeMs(ms: int)

  /** The time values a `Date` object can hold. */
  type Time = t: TimeValue | t.InvalidDate? || -MaxTime <= t.ms <= MaxTime witness InvalidDate

  /** ToIntegerOrInfinity on a finite number: truncation toward zero. */
  function Truncate(x: real): (n: int)
    ensures x >= 0.0 ==> n as real <= x < n as real + 1.0
    ensures x < 0.0 ==> n as real - 1.0 < x <= n as real
  {
    if x >= 0.0 then x.Floor else -((-x).Floor)
  }

  /** TimeClip: what `new Date(x)` stores for a number `x`. */
  function TimeClip(x: JsNumber): (t: Time)
    ensures t.TimeMs? <==> x.Finite? && -(MaxTime as real) <= x.v <= MaxTime as real
    ensures t.TimeMs? ==> t.ms == Truncate(x.v)
  {
    if x.Finite? && -(MaxTime as real) <= x.v <= MaxTime as real then TimeMs(Truncate(x.v))
    else InvalidDate
  }

  // ---------------------------------------------------------------------------
  // The proleptic Gregorian calendar

  predicate IsLeapYear(y: int) {
    y % 4 == 0 && (y % 100 != 0 || y % 400 == 0)
  }

  function DaysInYear(y: int): int {
    if IsLeapYear(y) then 366 else 365
  }

  /** The day number of 1 January of year `y` (day 0 is 1 January 1970). */
  function DayFromYear(y: int): int
    decreases if y >= 1970 then y - 1970 else 1970 - y
  {
    if y == 1970 then 0
    else if y > 1970 then DayFromYear(y - 1) + DaysInYear(y - 1)
    else DayFromYear(y + 1) - DaysInYear(y)
  }

  lemma NextYear(y: int)
    ensures DayFromYear(y + 1) == DayFromYear(y) + DaysInYear(y)
  {
  }

  /** The year holding day `DayFromYear(y) + z`, and the day's index in it. */
  function YearWithin(y: int, z: int): (r: (int, int))
    ensures DayFromYear(r.0) + r.1 == DayFromYear(y) + z
    ensures 0 <= r.1 < DaysInYear(r.0)
    decreases if z >= 0 then z else 366 - z
  {
    if 0 <= z < DaysInYear(y) then (y, z)
    else if z >= DaysInYear(y) then
      NextYear(y);
      YearWithin(y + 1, z - DaysInYear(y))
    else
      NextYear(y - 1);
      YearWithin(y - 1, z + DaysInYear(y - 1))
  }

  function DaysInMonth(y: int, m: int): (n: int)
    requires 1 <= m <= 12
    ensures 28 <= n <= 31
  {
    if m == 2 then (if IsLeapYear(y) then 29 else 28)
    else if m == 4 || m == 6 || m == 9 || m == 11 then 30
    else 31
  }

  /** Days from 1 January to the first day of month `m` (13 stands for the
      end of the year). */
  function DayFromMonth(y: int, m: int): (n: int)
    requires 1 <= m <= 13
    ensures n >= 0
  {
    if m == 1 then 0 else DayFromMonth(y, m - 1) + DaysInMonth(y, m - 1)
  }

  lemma MonthsFillYear(y: int)
    ensures DayFromMonth(y, 13) == DaysInYear(y)
  {
    var feb := DaysInMonth(y, 2);
    assert DayFromMonth(y, 2) == 31;
    assert DayFromMonth(y, 3) == 31 + feb;
    assert DayFromMonth(y, 4) == 62 + feb;
    assert DayFromMonth(y, 5) == 92 + feb;
    assert DayFromMonth(y, 6) == 123 + feb;
    assert DayFromMonth(y, 7) == 153 + feb;
    assert DayFromMonth(y, 8) == 184 + feb;
    assert DayFromMonth(y, 9) == 215 + feb;
    assert DayFromMonth(y, 10) == 245 + feb;
    assert DayFromMonth(y, 11) == 276 + feb;
    assert DayFromMonth(y, 12) == 306 + feb;
    assert DayFromMonth(y, 13) == 337 + feb;
  }

  /** The month and day of month of the day `d` days after the first of
      month `m`. */
  function MonthWithin(y: int, m: int, d: int): (r: (int, int))
    requires 1 <= m <= 12 && 0 <= d < DaysInYear(y) - DayFromMonth(y, m)
    ensures 1 <= r.0 <= 12 && 1 <= r.1 <= DaysInMonth(y, r.0)
    ensures DayFromMonth(y, r.0) + r.1 - 1 == DayFromMonth(y, m) + d
    decreases 12 - m
  {
    MonthsFillYear(y);
    if d < DaysInMonth(y, m) then (m, d + 1)
    else MonthWithin(y, m + 1, d - DaysInMonth(y, m))
  }

  /** The UTC calendar fields of a time value. */
  datatype DateTime = DateTime(year: int, month: int, day: int, hour: int, minute: int, second: int, milli: int)

  predicate WellFormed(dt: DateTime) {
    && 1 <= dt.month <= 12 && 1 <= dt.day <= DaysInMonth(dt.year, dt.month)
    && 0 <= dt.hour < 24 && 0 <= dt.minute < 60 && 0 <= dt.second < 60 && 0 <= dt.milli < 1000
  }

  /** The time value the calendar fields denote (MakeDate of MakeDay and
      MakeTime). */
  function TimeFromFields(dt: DateTime): int
    requires 1 <= dt.month <= 12
  {
    (DayFromYear(dt.year) + DayFromMonth(dt.year, dt.month) + dt.day - 1) * MsPerDay
    + dt.hour * MsPerHour + dt.minute * MsPerMinute + dt.second * MsPerSecond + dt.milli
  }

  /** The calendar fields of time value `ms`; they denote `ms` again. */
  function FieldsOf(ms: int): (dt: DateTime)
    ensures WellFormed(dt)
    ensures TimeFromFields(dt) == ms
  {
    var days, tod := ms / MsPerDay, ms % MsPerDay;
    var yd := YearWithin(1970, days);
    MonthsFillYear(yd.0);
    var md := MonthWithin(yd.0, 1, yd.1);
    var secs := tod / 1000;
    var mins := secs / 60;
    assert tod == ((mins / 60 * 60 + mins % 60) * 60 + secs % 60) * 1000 + tod % 1000;
    DateTime(yd.0, md.0, md.1, mins / 60, mins % 60, secs % 60, tod % 1000)
  }

  // ---------------------------------------------------------------------------
  // Date.prototype.toISOString

  /** Four digits for years 0..9999, otherwise a sign and six digits. */
  function YearField(y: int): string {
    if 0 <= y <= 9999 then PadDecimal(y, 4)
    else (if y < 0 then "-" else "+") + PadDecimal(if y < 0 then -y else y, 6)
  }

  /** Everything after the year: `-MM-DDTHH:mm:ss.sssZ`. */
  function RestFields(dt: DateTime): string
    requires WellFormed(dt)
  {
    "-" + PadDecimal(dt.month, 2) + ("-" + PadDecimal(dt.day, 2)
    + ("T" + PadDecimal(dt.hour, 2) + (":" + PadDecimal(dt.minute, 2) + (":" + PadDecimal(dt.second, 2)
    + ("." + PadDecimal(dt.milli, 3) + "Z")))))
  }

  /** `toISOString`: the text for a valid time, `None` (a thrown RangeError)
      for an invalid one. */
  function ToIsoString(t: Time): (r: Option<string>)
    ensures r.Some? <==> t.TimeMs?
    ensures r.Some? ==> |r.value| >= 24 && r.value[|r.value| - 1] == 'Z'
  {
    match t
    case InvalidDate => None
    case TimeMs(ms) =>
      var dt := FieldsOf(ms);
      Some(YearField(dt.year) + RestFields(dt))
  }

  // ---------------------------------------------------------------------------
  // Reading the text back

  /** Two-, three-, four- or six-digit field at `s[i..j]`. */
  function FieldAt(s: string, i: nat, j: nat): Option<nat>
    requires i <= j <= |s|
  {
    if AllDigits(s[i..j]) then Some(DigitsValue(s[i..j])) else None
  }

  /** Parses the 20 characters after the year. */
  function ParseRest(y: int, r: string): Option<int>
    requires |r| == 20
  {
    var m, d, h, mi, sec, milli := FieldAt(r, 1, 3), FieldAt(r, 4, 6), FieldAt(r, 7, 9),
                                   FieldAt(r, 10, 12), FieldAt(r, 13, 15), FieldAt(r, 16, 19);
    if m.None? || d.None? || h.None? || mi.None? || sec.None? || milli.None? then None
    else if !(1 <= m.value <= 12) then None
    else Some(TimeFromFields(DateTime(y, m.value, d.value, h.value, mi.value, sec.value, milli.value)))
  }

  /** The time value an ISO text produced by `toISOString` stands for. */
  function ParseIso(s: string): Option<int> {
    if |s| == 24 then
      match FieldAt(s, 0, 4)
      case None => None
      case Some(y) => ParseRest(y, s[4..])
    else if |s| == 27 && (s[0] == '+' || s[0] == '-') then
      match FieldAt(s, 1, 7)
      case None => None
      case Some(mag) =>
        var y: int := if s[0] == '-' then -(mag as int) else mag;
        ParseRest(y, s[7..])
    else None
  }

  lemma {:induction false} YearsGrow(y: int)
    ensures y >= 1970 ==> DayFromYear(y) >= 365 * (y - 1970)
    ensures y < 1970 ==> DayFromYear(y) <= 365 * (y - 1970)
    decreases if y >= 1970 then y - 1970 else 1970 - y
  {
    if y > 1970 {
      YearsGrow(y - 1);
    } else if y < 1970 {
      YearsGrow(y + 1);
    }
  }

  /** Every valid time value falls in a year of at most six digits. */
  lemma YearOfValidTime(ms: int)
    requires -MaxTime <= ms <= MaxTime
    ensures -1000000 < FieldsOf(ms).year < 1000000
  {
    var days := ms / MsPerDay;
    assert -100000000 <= days <= 100000000;
    var yd := YearWithin(1970, days);
    assert FieldsOf(ms).year == yd.0;
    YearsGrow(yd.0);
  }

  /** A one-character separator, a field, and the rest. */
  lemma Peel(sep: string, field: string, tail: string)
    requires |sep| == 1
    ensures (sep + field + tail)[1..1 + |field|] == field
    ensures (sep + field + tail)[1 + |field|..] == tail
  {
  }

  /** A slice of a suffix is a slice of the whole. */
  lemma SliceOfSuffix(r: string, k: nat, tail: string, i: nat, j: nat)
    requires k <= |r| && r[k..] == tail && i <= j <= |tail|
    ensures r[k + i..k + j] == tail[i..j]
  {
    forall x | 0 <= x < j - i
      ensures r[k + i..k + j][x] == tail[i..j][x]
    {
      assert tail[i + x] == r[k..][i + x] == r[k + i + x];
    }
  }

  /** Where each field of `RestFields` sits. */
  lemma RestFieldsLayout(dt: DateTime)
    requires WellFormed(dt)
    ensures var r := RestFields(dt);
      && |r| == 20
      && r[1..3] == PadDecimal(dt.month, 2) && r[4..6] == PadDecimal(dt.day, 2)
      && r[7..9] == PadDecimal(dt.hour, 2) && r[10..12] == PadDecimal(dt.minute, 2)
      && r[13..15] == PadDecimal(dt.second, 2) && r[16..19] == PadDecimal(dt.milli, 3)
  {
    var m, d := PadDecimal(dt.month, 2), PadDecimal(dt.day, 2);
    var h, mi, s := PadDecimal(dt.hour, 2), PadDecimal(dt.minute, 2), PadDecimal(dt.second, 2);
    var ms := PadDecimal(dt.milli, 3);
    PadDecimalField(dt.month, 2);
    PadDecimalField(dt.day, 2);
    PadDecimalField(dt.hour, 2);
    PadDecimalField(dt.minute, 2);
    PadDecimalField(dt.second, 2);
    PadDecimalField(dt.milli, 3);
    var r5 := "." + ms + "Z";
    var r4 := ":" + s + r5;
    var r3 := ":" + mi + r4;
    var r2 := "T" + h + r3;
    var r1 := "-" + d + r2;
    var r := "-" + m + r1;
    assert r == RestFields(dt);
    Peel("-", m, r1);
    Peel("-", d, r2);
    Peel("T", h, r3);
    Peel(":", mi, r4);
    Peel(":", s, r5);
    Peel(".", ms, "Z");
    SliceOfSuffix(r, 3, r1, 1, 3);
    SliceOfSuffix(r1, 3, r2, 0, |r2|);
    SliceOfSuffix(r, 6, r2, 1, 3);
    SliceOfSuffix(r2, 3, r3, 0, |r3|);
    SliceOfSuffix(r, 9, r3, 1, 3);
    SliceOfSuffix(r3, 3, r4, 0, |r4|);
    SliceOfSuffix(r, 12, r4, 1, 3);
    SliceOfSuffix(r4, 3, r5, 0, |r5|);
    SliceOfSuffix(r, 15, r5, 1, 4);
  }

  lemma RestFieldsRead(y: int, dt: DateTime)
    requires WellFormed(dt) && dt.year == y
    ensures |RestFields(dt)| == 20 && ParseRest(y, RestFields(dt)) == Some(TimeFromFields(dt))
  {
    var r := RestFields(dt);
    RestFieldsLayout(dt);
    PadDecimalField(dt.month, 2);
    PadDecimalField(dt.day, 2);
    PadDecimalField(dt.hour, 2);
    PadDecimalField(dt.minute, 2);
    PadDecimalField(dt.second, 2);
    PadDecimalField(dt.milli, 3);
    assert FieldAt(r, 1, 3) == Some(dt.month);
    assert FieldAt(r, 4, 6) == Some(dt.day);
    assert FieldAt(r, 7, 9) == Some(dt.hour);
    assert FieldAt(r, 10, 12) == Some(dt.minute);
    assert FieldAt(r, 13, 15) == Some(dt.second);
    assert FieldAt(r, 16, 19) == Some(dt.milli);
  }

  /** The year field reads back, whatever follows it. */
  lemma YearFieldRead(y: int, rest: string)
    requires -1000000 < y < 1000000 && |rest| == 20
    ensures ParseIso(YearField(y) + rest) == ParseRest(y, rest)
  {
    var yf := YearField(y);
    var s := yf + rest;
    if 0 <= y <= 9999 {
      PadDecimalField(y, 4);
      assert s[0..4] == yf && s[4..] == rest;
    } else {
      var mag := if y < 0 then -y else y;
      PadDecimalField(mag, 6);
      assert s[1..7] == PadDecimal(mag, 6) && s[7..] == rest;
      assert s[0] == (if y < 0 then '-' else '+');
    }
  }

  /** `toISOString` loses nothing: its text reads back as the same time
      value. */
  lemma IsoRoundTrip(t: Time)
    requires t.TimeMs?
    ensures ParseIso(ToIsoString(t).value) == Some(t.ms)
  {
    var dt := FieldsOf(t.ms);
    RestFieldsRead(dt.year, dt);
    YearOfValidTime(t.ms);
    YearFieldRead(dt.year, RestFields(dt));
  }
}
