/**
 * Capture timestamps and their rendering by the normaliser as
 * `%Y-%m-%dT%H:%M:%S.%f` (ISO 8601 with microseconds).
 */
module Timestamps {
  import opened Wrappers
  import opened Text

  /** A wall-clock reading, as Python's `datetime` holds it (no time zone). */
  datatype DateTime = DateTime(
    year: nat, month: nat, day: nat,
    hour: nat, minute: nat, second: nat, microsecond: nat)

  predicate IsLeapYear(y: nat) {
    (y % 4 == 0 && y % 100 != 0) || y % 400 == 0
  }

  function DaysInMonth(y: nat, m: nat): nat {
    if m == 2 then (if IsLeapYear(y) then 29 else 28)
    else if m == 4 || m == 6 || m == 9 || m == 11 then 30
    else 31
  }

  /** The field ranges a Python `datetime` enforces. */
  predicate ValidDateTime(dt: DateTime) {
    1 <= dt.year <= 9999 && 1 <= dt.month <= 12 && 1 <= dt.day <= DaysInMonth(dt.year, dt.month) &&
    dt.hour < 24 && dt.minute < 60 && dt.second < 60 && dt.microsecond < 1000000
  }

  /** Orders valid readings chronologically (fields compared left to right). */
  function Key(dt: DateTime): int {
    (((((dt.year * 13 + dt.month) * 32 + dt.day) * 24 + dt.hour) * 60 + dt.minute) * 60 + dt.second)
      * 1000000 + dt.microsecond
  }

  /**
   * The instants a pandas `Timestamp` can hold (nanoseconds since 1970 in a
   * signed 64-bit integer): after 1677-09-21 00:12:43.145224 and up to
   * 2262-04-11 23:47:16.854775 at microsecond precision.
   */
  predicate InPandasRange(dt: DateTime) {
    Key(DateTime(1677, 9, 21, 0, 12, 43, 145224)) < Key(dt) <= Key(DateTime(2262, 4, 11, 23, 47, 16, 854775))
  }

  /** `dt.strftime('%Y-%m-%dT%H:%M:%S.%f')`. */
  function FormatIso(dt: DateTime): (r: string)
    ensures ValidDateTime(dt) ==> |r| == 26 && r[4] == '-' && r[10] == 'T' && r[19] == '.'
  {
    FieldLayout(dt);
    IsoLayout(FormatDate(dt), FormatTime(dt));
    FormatDate(dt) + "T" + FormatTime(dt)
  }

  /** For a valid reading the date and the time have fixed widths and separators. */
  lemma FieldLayout(dt: DateTime)
    ensures ValidDateTime(dt) ==>
      && |FormatDate(dt)| == 10 && FormatDate(dt)[4] == '-' && FormatDate(dt)[7] == '-'
      && |FormatTime(dt)| == 15 && FormatTime(dt)[2] == ':' && FormatTime(dt)[5] == ':' && FormatTime(dt)[8] == '.'
  {
    if ValidDateTime(dt) {
      Pow10Values();
      PadNatSpec(dt.year, 4);
      PadNatSpec(dt.month, 2);
      PadNatSpec(dt.day, 2);
      PadNatSpec(dt.hour, 2);
      PadNatSpec(dt.minute, 2);
      PadNatSpec(dt.second, 2);
      PadNatSpec(dt.microsecond, 6);
      DateSlices(PadNat(dt.year, 4), PadNat(dt.month, 2), PadNat(dt.day, 2));
      TimeSlices(PadNat(dt.hour, 2), PadNat(dt.minute, 2), PadNat(dt.second, 2), PadNat(dt.microsecond, 6));
    }
  }

  function FormatDate(dt: DateTime): string {
    PadNat(dt.year, 4) + "-" + PadNat(dt.month, 2) + "-" + PadNat(dt.day, 2)
  }

  function FormatTime(dt: DateTime): string {
    PadNat(dt.hour, 2) + ":" + PadNat(dt.minute, 2) + ":" + PadNat(dt.second, 2) + "." + PadNat(dt.microsecond, 6)
  }

  /** Reads back the fixed-width text `FormatIso` writes. */
  function ParseIso(t: string): Option<DateTime> {
    if |t| == 26 && t[10] == 'T' then
      match (ParseDate(t[..10]), ParseTime(t[11..]))
      case (Some((y, mo, d)), Some((h, mi, s, us))) => Some(DateTime(y, mo, d, h, mi, s, us))
      case _ => None
    else None
  }

  /** `YYYY-MM-DD`. */
  function ParseDate(t: string): Option<(nat, nat, nat)> {
    if |t| == 10 && t[4] == '-' && t[7] == '-' &&
       AllDigits(t[0..4]) && AllDigits(t[5..7]) && AllDigits(t[8..10])
    then Some((DigitsValue(t[0..4]), DigitsValue(t[5..7]), DigitsValue(t[8..10])))
    else None
  }

  /** `HH:MM:SS.ffffff`. */
  function ParseTime(t: string): Option<(nat, nat, nat, nat)> {
    if |t| == 15 && t[2] == ':' && t[5] == ':' && t[8] == '.' &&
       AllDigits(t[0..2]) && AllDigits(t[3..5]) && AllDigits(t[6..8]) && AllDigits(t[9..15])
    then Some((DigitsValue(t[0..2]), DigitsValue(t[3..5]), DigitsValue(t[6..8]), DigitsValue(t[9..15])))
    else None
  }

  lemma Pow10Values()
    ensures Pow10(2) == 100 && Pow10(4) == 10000 && Pow10(6) == 1000000
  {
    assert Pow10(2) == 100;
    assert Pow10(4) == 100 * Pow10(2);
    assert Pow10(6) == 100 * Pow10(4);
  }

  lemma DateSlices(y: string, mo: string, d: string)
    requires |y| == 4 && |mo| == 2 && |d| == 2
    ensures var t := y + "-" + mo + "-" + d;
      |t| == 10 && t[0..4] == y && t[5..7] == mo && t[8..10] == d && t[4] == '-' && t[7] == '-'
  {
  }

  lemma ParseDateFields(y: string, mo: string, d: string)
    requires |y| == 4 && |mo| == 2 && |d| == 2 && AllDigits(y) && AllDigits(mo) && AllDigits(d)
    ensures ParseDate(y + "-" + mo + "-" + d) == Some((DigitsValue(y), DigitsValue(mo), DigitsValue(d)))
  {
    var t := y + "-" + mo + "-" + d;
    DateSlices(y, mo, d);
    assert AllDigits(t[0..4]) && AllDigits(t[5..7]) && AllDigits(t[8..10]);
    assert DigitsValue(t[0..4]) == DigitsValue(y);
    assert DigitsValue(t[5..7]) == DigitsValue(mo);
    assert DigitsValue(t[8..10]) == DigitsValue(d);
  }

  lemma TimeSlices(h: string, mi: string, s: string, us: string)
    requires |h| == 2 && |mi| == 2 && |s| == 2 && |us| == 6
    ensures var t := h + ":" + mi + ":" + s + "." + us;
      |t| == 15 && t[0..2] == h && t[3..5] == mi && t[6..8] == s && t[9..15] == us &&
      t[2] == ':' && t[5] == ':' && t[8] == '.'
  {
  }

  lemma ParseTimeFields(h: string, mi: string, s: string, us: string)
    requires |h| == 2 && |mi| == 2 && |s| == 2 && |us| == 6
    requires AllDigits(h) && AllDigits(mi) && AllDigits(s) && AllDigits(us)
    ensures ParseTime(h + ":" + mi + ":" + s + "." + us)
      == Some((DigitsValue(h), DigitsValue(mi), DigitsValue(s), DigitsValue(us)))
  {
    var t := h + ":" + mi + ":" + s + "." + us;
    TimeSlices(h, mi, s, us);
    assert AllDigits(t[0..2]) && AllDigits(t[3..5]) && AllDigits(t[6..8]) && AllDigits(t[9..15]);
    assert DigitsValue(t[0..2]) == DigitsValue(h);
    assert DigitsValue(t[3..5]) == DigitsValue(mi);
    assert DigitsValue(t[6..8]) == DigitsValue(s);
    assert DigitsValue(t[9..15]) == DigitsValue(us);
  }

  lemma IsoSlices(date: string, time: string)
    requires |date| == 10 && |time| == 15
    ensures var t := date + "T" + time;
      |t| == 26 && t[10] == 'T' && t[..10] == date && t[11..] == time
  {
  }

  lemma IsoLayout(date: string, time: string)
    ensures |date| == 10 && |time| == 15 ==>
      var t := date + "T" + time;
      && |t| == 26 && t[10] == 'T'
      && t[4] == date[4] && t[7] == date[7] && t[13] == time[2] && t[16] == time[5] && t[19] == time[8]
  {
  }

  /**
   * A valid reading renders as 26 characters with the date and the time
   * separated by `T` at index 10, and the rendering loses nothing: parsing
   * it back gives the same reading.
   */
  lemma FormatIsoRoundTrip(dt: DateTime)
    requires ValidDateTime(dt)
    ensures |FormatIso(dt)| == 26 && FormatIso(dt)[10] == 'T'
    ensures ParseIso(FormatIso(dt)) == Some(dt)
  {
    FormatDateRoundTrip(dt);
    FormatTimeRoundTrip(dt);
    IsoSlices(FormatDate(dt), FormatTime(dt));
  }

  lemma FormatDateRoundTrip(dt: DateTime)
    requires ValidDateTime(dt)
    ensures |FormatDate(dt)| == 10 && ParseDate(FormatDate(dt)) == Some((dt.year, dt.month, dt.day))
  {
    Pow10Values();
    PadNatSpec(dt.year, 4);
    PadNatSpec(dt.month, 2);
    PadNatSpec(dt.day, 2);
    var y, mo, d := PadNat(dt.year, 4), PadNat(dt.month, 2), PadNat(dt.day, 2);
    ParseDateFields(y, mo, d);
    DateSlices(y, mo, d);
  }

  lemma FormatTimeRoundTrip(dt: DateTime)
    requires ValidDateTime(dt)
    ensures |FormatTime(dt)| == 15
    ensures ParseTime(FormatTime(dt)) == Some((dt.hour, dt.minute, dt.second, dt.microsecond))
  {
    Pow10Values();
    PadNatSpec(dt.hour, 2);
    PadNatSpec(dt.minute, 2);
    PadNatSpec(dt.second, 2);
    PadNatSpec(dt.microsecond, 6);
    var h, mi, s, us := PadNat(dt.hour, 2), PadNat(dt.minute, 2), PadNat(dt.second, 2), PadNat(dt.microsecond, 6);
    ParseTimeFields(h, mi, s, us);
    TimeSlices(h, mi, s, us);
  }

  /**
   * `pd.to_datetime(..., errors='coerce').dt.strftime(...)` on one cell: a
   * reading pandas cannot hold, or no reading at all, becomes a missing
   * value (the row stays).
   */
  function NormalizeTimestamp(ts: Option<DateTime>): (r: Option<string>)
    ensures r.Some? <==> ts.Some? && ValidDateTime(ts.value) && InPandasRange(ts.value)
    ensures r.Some? ==> |r.value| == 26 && r.value[10] == 'T' && ParseIso(r.value) == ts
  {
    if ts.Some? && ValidDateTime(ts.value) && InPandasRange(ts.value) then
      FormatIsoRoundTrip(ts.value);
      Some(FormatIso(ts.value))
    else None
  }
}
