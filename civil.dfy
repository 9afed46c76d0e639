/**
 * UTC timestamps as the bot stores and prints them. A timestamp is a count of
 * microseconds since 1970-01-01 00:00:00 UTC (the resolution of Python's
 * `datetime` and of a PostgreSQL `TIMESTAMP`); the calendar is the proleptic
 * Gregorian one Python uses.
 */
module Civil {
  import opened Wrappers
  import opened Text

  const US_PER_SECOND: nat := 1000000
  const SECONDS_PER_DAY: nat := 86400
  const US_PER_DAY: nat := 86400000000

  predicate IsLeap(y: int) {
    y % 4 == 0 && (y % 100 != 0 || y % 400 == 0)
  }

  function DaysInYear(y: int): nat {
    if IsLeap(y) then 366 else 365
  }

  function DaysInMonth(y: int, m: nat): nat
    requires 1 <= m <= 12
  {
    if m == 2 then (if IsLeap(y) then 29 else 28)
    else if m == 4 || m == 6 || m == 9 || m == 11 then 30
    else 31
  }

  /** Days of year `y` before the first of month `m` (`m == 13` gives the whole year). */
  function DaysBeforeMonth(y: int, m: nat): nat
    requires 1 <= m <= 13
  {
    if m == 1 then 0 else DaysBeforeMonth(y, m - 1) + DaysInMonth(y, m - 1)
  }

  lemma YearIsTwelveMonths(y: int)
    ensures DaysBeforeMonth(y, 13) == DaysInYear(y)
  {
    var feb := DaysInMonth(y, 2);
    assert DaysBeforeMonth(y, 2) == 31;
    assert DaysBeforeMonth(y, 3) == 31 + feb;
    assert DaysBeforeMonth(y, 4) == 62 + feb;
    assert DaysBeforeMonth(y, 5) == 92 + feb;
    assert DaysBeforeMonth(y, 6) == 123 + feb;
    assert DaysBeforeMonth(y, 7) == 153 + feb;
    assert DaysBeforeMonth(y, 8) == 184 + feb;
    assert DaysBeforeMonth(y, 9) == 215 + feb;
    assert DaysBeforeMonth(y, 10) == 245 + feb;
    assert DaysBeforeMonth(y, 11) == 276 + feb;
    assert DaysBeforeMonth(y, 12) == 306 + feb;
  }

  /** Days from 1970-01-01 to the first of January of year `y`. */
  function DaysBeforeYear(y: int): nat
    requires y >= 1970
    decreases y
  {
    if y == 1970 then 0 else DaysBeforeYear(y - 1) + DaysInYear(y - 1)
  }

  datatype Date = Date(year: int, month: nat, day: nat)

  predicate ValidDate(d: Date) {
    d.year >= 1970 && 1 <= d.month <= 12 && 1 <= d.day <= DaysInMonth(d.year, d.month)
  }

  /** The day number of a date (0 is 1970-01-01). */
  function DayNumber(d: Date): nat
    requires ValidDate(d)
  {
    DaysBeforeYear(d.year) + DaysBeforeMonth(d.year, d.month) + d.day - 1
  }

  function MonthAndDay(y: int, m: nat, doy: nat): (d: Date)
    requires y >= 1970 && 1 <= m <= 12
    requires DaysBeforeMonth(y, m) + doy < DaysInYear(y)
    ensures ValidDate(d) && d.year == y && m <= d.month
    ensures DaysBeforeMonth(y, d.month) + d.day - 1 == DaysBeforeMonth(y, m) + doy
    decreases 12 - m
  {
    YearIsTwelveMonths(y);
    if doy < DaysInMonth(y, m) then Date(y, m, doy + 1)
    else MonthAndDay(y, m + 1, doy - DaysInMonth(y, m))
  }

  function DateInYear(y: int, days: nat): (d: Date)
    requires y >= 1970
    ensures ValidDate(d) && DayNumber(d) == DaysBeforeYear(y) + days
    decreases days
  {
    if days < DaysInYear(y) then MonthAndDay(y, 1, days)
    else DateInYear(y + 1, days - DaysInYear(y))
  }

  /** The calendar date of day number `days`. */
  function DateOfDay(days: nat): (d: Date)
    ensures ValidDate(d)
  {
    DateInYear(1970, days)
  }

  /** Day numbers and dates correspond one to one: the date of a day number has that number. */
  lemma DateOfDayNumber(days: nat)
    ensures DayNumber(DateOfDay(days)) == days
  {
  }

  function Pad6(k: nat): (r: string)
    requires k < 1000000
    ensures |r| == 6
  {
    Pad3(k / 1000) + Pad3(k % 1000)
  }

  /** The wall-clock fields of a timestamp. */
  datatype Clock = Clock(date: Date, hour: nat, minute: nat, second: nat, micro: nat)

  function ClockOf(us: nat): (c: Clock)
    ensures ValidDate(c.date) && c.hour < 24 && c.minute < 60 && c.second < 60 && c.micro < US_PER_SECOND
  {
    var secs := (us % US_PER_DAY) / US_PER_SECOND;
    Clock(DateOfDay(us / US_PER_DAY), secs / 3600, (secs / 60) % 60, secs % 60, us % US_PER_SECOND)
  }

  /** Seconds of a day split into hours, minutes and seconds. */
  lemma SecondsSplit(secs: nat)
    ensures secs == (secs / 3600) * 3600 + ((secs / 60) % 60) * 60 + secs % 60
  {
    var m := secs / 60;
    assert secs == m * 60 + secs % 60;
    assert m == (m / 60) * 60 + m % 60;
    assert secs / 3600 == m / 60;
  }

  /** A timestamp split into days, whole seconds of the day and microseconds. */
  lemma MicrosSplit(us: nat)
    ensures us == (us / US_PER_DAY) * US_PER_DAY + ((us % US_PER_DAY) / US_PER_SECOND) * US_PER_SECOND + us % US_PER_SECOND
  {
    var r := us % US_PER_DAY;
    assert us == (us / US_PER_DAY) * US_PER_DAY + r;
    assert r == (r / US_PER_SECOND) * US_PER_SECOND + r % US_PER_SECOND;
    assert r % US_PER_SECOND == us % US_PER_SECOND;
  }

  /** A timestamp's clock fields give it back. */
  lemma ClockOfRoundTrip(us: nat)
    ensures var c := ClockOf(us);
      us == DayNumber(c.date) * US_PER_DAY
            + ((c.hour * 3600 + c.minute * 60 + c.second) * US_PER_SECOND + c.micro)
  {
    var secs := (us % US_PER_DAY) / US_PER_SECOND;
    SecondsSplit(secs);
    MicrosSplit(us);
    DateOfDayNumber(us / US_PER_DAY);
  }

  /**
   * `strftime(f"%Y{d}%m{d}%d{s}%H{t}%M{t}%S")` for a timestamp (its years are
   * at least 1970, so `%Y` has four digits):
   * `"%Y-%m-%d %H:%M:%S"` is `DateTimeText(us, "-", " ", ":")`
   * and `"%Y-%m-%d_%H-%M-%S"` is `DateTimeText(us, "-", "_", "-")`.
   */
  function DateTimeText(us: nat, dateSep: string, middle: string, timeSep: string): string {
    var c := ClockOf(us);
    Decimal(c.date.year) + dateSep + Pad2(c.date.month) + dateSep + Pad2(c.date.day)
    + middle + Pad2(c.hour) + timeSep + Pad2(c.minute) + timeSep + Pad2(c.second)
  }

  /**
   * `str(t)` for a timezone-aware UTC `datetime`: `YYYY-MM-DD HH:MM:SS`, then
   * `.ffffff` when the microseconds are not zero, then `+00:00`.
   */
  function IsoText(us: nat): string {
    var micro := us % US_PER_SECOND;
    DateTimeText(us, "-", " ", ":") + (if micro == 0 then "" else "." + Pad6(micro)) + "+00:00"
  }

  // ---------------------------------------------------------------------------
  // time.fromisoformat

  /** The value of two decimal digits at `s[i..i + 2]`. */
  function TwoDigits(s: string, i: nat): (r: Option<nat>)
    requires i + 2 <= |s|
    ensures r.Some? ==> r.value < 100
  {
    if IsDigit(s[i]) && IsDigit(s[i + 1]) then Some(10 * DigitValue(s[i]) + DigitValue(s[i + 1])) else None
  }

  /** `time.fromisoformat(t)` for the forms `HH:MM` and `HH:MM:SS`: the hour and minute. */
  function ParseIsoTime(t: string): (r: Option<(nat, nat)>)
    ensures r.Some? ==> r.value.0 < 24 && r.value.1 < 60
  {
    if (|t| == 5 || (|t| == 8 && t[5] == ':')) && t[2] == ':' then
      var h := TwoDigits(t, 0);
      var m := TwoDigits(t, 3);
      var s := if |t| == 8 then TwoDigits(t, 6) else Some(0);
      if h.Some? && m.Some? && s.Some? && h.value < 24 && m.value < 60 && s.value < 60
      then Some((h.value, m.value)) else None
    else None
  }

  /** The two digits of a zero-padded field read back as its value. */
  lemma TwoDigitsOfPad2(s: string, i: nat, k: nat)
    requires k < 100 && i + 2 <= |s| && s[i..i + 2] == Pad2(k)
    ensures TwoDigits(s, i) == Some(k)
  {
    assert s[i] == DigitChar(k / 10) && s[i + 1] == DigitChar(k % 10);
    DigitCharValue(k / 10);
    DigitCharValue(k % 10);
  }

  /** An `HH:MM` time with seconds `:00` appended parses back to its hour and minute. */
  lemma ParseIsoTimeOfClock(h: nat, m: nat)
    requires h < 24 && m < 60
    ensures ParseIsoTime(Pad2(h) + ":" + Pad2(m) + ":00") == Some((h, m))
    ensures ParseIsoTime(Pad2(h) + ":" + Pad2(m)) == Some((h, m))
  {
    var t := Pad2(h) + ":" + Pad2(m) + ":00";
    TwoDigitsOfPad2(t, 0, h);
    TwoDigitsOfPad2(t, 3, m);
    TwoDigitsOfPad2(t, 6, 0);
    var u := Pad2(h) + ":" + Pad2(m);
    TwoDigitsOfPad2(u, 0, h);
    TwoDigitsOfPad2(u, 3, m);
  }
}
