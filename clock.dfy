/**
 * The bot's notion of time: one integer clock counting seconds from 1970-01-01 00:00 of
 * the proleptic Gregorian calendar, read as naive local time, and the two fixed formats
 * the reminder parsers accept, `HH:MM` and `YYYY-MM-DD HH:MM`.
 */
module Clock {
  import opened Common
  import opened Text

  const Minute: int := 60
  const Hour: int := 3600
  const Day: int := 86400

  /** Midnight of the day that `t` falls in. */
  function DayStart(t: int): (r: int)
    ensures r <= t < r + Day
    ensures r % Day == 0
  {
    t - t % Day
  }

  predicate IsLeapYear(y: int) {
    y % 4 == 0 && (y % 100 != 0 || y % 400 == 0)
  }

  function DaysInMonth(y: int, m: int): (n: int)
    requires 1 <= m <= 12
    ensures 28 <= n <= 31
  {
    if m == 2 then (if IsLeapYear(y) then 29 else 28)
    else if m == 4 || m == 6 || m == 9 || m == 11 then 30
    else 31
  }

  /**
   * Days from 1970-01-01 to year `y`, month `m`, day `d`.  Years are counted from March,
   * so that the leap day is the last day of a counting year; `/` is Euclidean in Dafny,
   * which for the positive divisors here is floor division.
   */
  function DaysFromCivil(y: int, m: int, d: int): int
    requires 1 <= m <= 12
  {
    var y' := if m <= 2 then y - 1 else y;
    var era := y' / 400;
    var yoe := y' - era * 400;
    var mp := if m > 2 then m - 3 else m + 9;
    var doy := (153 * mp + 2) / 5 + d - 1;
    var doe := yoe * 365 + yoe / 4 - yoe / 100 + doy;
    era * 146097 + doe - 719468
  }

  /** A time of day as `strptime(_, '%H:%M')` reads it. */
  datatype ClockTime = ClockTime(hour: int, minute: int)

  predicate ValidClock(c: ClockTime) {
    0 <= c.hour < 24 && 0 <= c.minute < 60
  }

  /** Seconds from midnight to the clock time. */
  function SecondsOfDay(c: ClockTime): (r: int)
    requires ValidClock(c)
    ensures 0 <= r < Day
    ensures r % Minute == 0
  {
    c.hour * Hour + c.minute * Minute
  }

  /** A date and time to the minute, as `strptime(_, '%Y-%m-%d %H:%M')` reads it. */
  datatype DateTime = DateTime(year: int, month: int, day: int, hour: int, minute: int)

  predicate ValidDateTime(d: DateTime) {
    && 1 <= d.year <= 9999
    && 1 <= d.month <= 12
    && 1 <= d.day <= DaysInMonth(d.year, d.month)
    && ValidClock(ClockTime(d.hour, d.minute))
  }

  /** The clock reading of a date and time. */
  function EpochSeconds(d: DateTime): (r: int)
    requires ValidDateTime(d)
    ensures DayStart(r) == DaysFromCivil(d.year, d.month, d.day) * Day
    ensures r - DayStart(r) == SecondsOfDay(ClockTime(d.hour, d.minute))
  {
    var days := DaysFromCivil(d.year, d.month, d.day);
    var secs := SecondsOfDay(ClockTime(d.hour, d.minute));
    MidnightPlus(days, secs);
    days * Day + secs
  }

  lemma MidnightPlus(days: int, secs: int)
    requires 0 <= secs < Day
    ensures DayStart(days * Day + secs) == days * Day
  {
    var t := days * Day + secs;
    assert t % Day == secs && t / Day == days by {
      assert t == Day * days + secs;
    }
  }

  /**
   * The last second a `datetime` can hold, 9999-12-31 23:59:59: arithmetic whose result
   * would lie beyond it raises `OverflowError`.
   */
  const LastInstant: int := 253402300799

  lemma LastInstantIsLastSecond()
    ensures LastInstant == EpochSeconds(DateTime(9999, 12, 31, 23, 59)) + 59
    ensures DayStart(LastInstant) == LastInstant - (Day - 1)
  {
  }

  /** The first second a `datetime` can hold, 0001-01-01 00:00:00. */
  const FirstInstant: int := -62135596800

  lemma FirstInstantIsFirstSecond()
    ensures FirstInstant == EpochSeconds(DateTime(1, 1, 1, 0, 0))
  {
  }

  /** Days from 1970-01-01 to a date of year 9999 or earlier: at most the count for 9999-12-31. */
  lemma DaysFromCivilBound(y: int, m: int, d: int)
    requires 1 <= y <= 9999 && 1 <= m <= 12 && 1 <= d <= DaysInMonth(y, m)
    ensures DaysFromCivil(y, m, d) <= 2932896
  {
    var y' := if m <= 2 then y - 1 else y;
    var era := y' / 400;
    var yoe := y' - era * 400;
    var mp := if m > 2 then m - 3 else m + 9;
    var doy := (153 * mp + 2) / 5 + d - 1;
    assert 0 <= era <= 24 && 0 <= yoe < 400;
    assert doy <= 365;
    assert yoe / 4 - yoe / 100 <= 99 - 3 + 1;
    if era < 24 {
      assert yoe * 365 + yoe / 4 - yoe / 100 + doy <= 146096;
      assert era * 146097 <= 23 * 146097;
    } else {
      assert y' == 9600 + yoe;
      if yoe == 399 {
        assert m > 2 && mp <= 9 && doy <= 305;
      } else {
        assert yoe * 365 <= 398 * 365;
        assert yoe / 4 - yoe / 100 <= 96;
      }
    }
  }

  /** Every date and time `strptime` accepts lies within the range of `datetime`. */
  lemma EpochSecondsInRange(d: DateTime)
    requires ValidDateTime(d)
    ensures EpochSeconds(d) <= LastInstant
  {
    DaysFromCivilBound(d.year, d.month, d.day);
  }

  predicate AllDigits(s: string) {
    forall i :: 0 <= i < |s| ==> IsDigit(s[i])
  }

  /** The value of a fixed-width all-digit field, `None` when some character is not a digit. */
  function Field(s: string): (r: Option<nat>)
    ensures r.Some? <==> AllDigits(s)
  {
    if AllDigits(s) then Some(DecimalValue(s)) else None
  }

  /** `strptime(s, '%H:%M')` for a five-character string: two digits, a colon, two digits, hour below 24, minute below 60. */
  function ParseClock(s: string): (r: Option<ClockTime>)
    ensures r.Some? ==> |s| == 5 && s[2] == ':' && ValidClock(r.value)
  {
    if |s| != 5 || s[2] != ':' then None
    else
      match (Field(s[..2]), Field(s[3..]))
      case (Some(h), Some(m)) =>
        var c := ClockTime(h, m);
        if ValidClock(c) then Some(c) else None
      case _ => None
  }

  /** `strptime(s, '%Y-%m-%d %H:%M')` for the sixteen-character form: a real calendar date and a time of day. */
  function ParseDateTime(s: string): (r: Option<DateTime>)
    ensures r.Some? ==> |s| == 16 && ValidDateTime(r.value)
  {
    if |s| != 16 || s[4] != '-' || s[7] != '-' || s[10] != ' ' || s[13] != ':' then None
    else
      match (Field(s[..4]), Field(s[5..7]), Field(s[8..10]), Field(s[11..13]), Field(s[14..]))
      case (Some(y), Some(mo), Some(d), Some(h), Some(mi)) =>
        var dt := DateTime(y, mo, d, h, mi);
        if ValidDateTime(dt) then Some(dt) else None
      case _ => None
  }

  /** Zero-padded two-digit printing (`%02d`). */
  function Pad2(n: nat): (s: string)
    requires n < 100
    ensures |s| == 2 && AllDigits(s) && DecimalValue(s) == n
  {
    var a, b := DigitChar(n / 10), DigitChar(n % 10);
    DecimalValueSnoc([], a);
    assert [] + [a] == [a];
    DecimalValueSnoc([a], b);
    assert [a] + [b] == [a, b];
    [a, b]
  }

  /** Appending a two-digit field shifts the value two decimal places. */
  lemma DecimalValueAppendPair(a: string, b: string)
    requires AllDigits(a) && AllDigits(b) && |b| == 2
    ensures DecimalValue(a + b) == 100 * DecimalValue(a) + DecimalValue(b)
  {
    assert a + b == (a + [b[0]]) + [b[1]];
    DecimalValueSnoc(a, b[0]);
    DecimalValueSnoc(a + [b[0]], b[1]);
    DecimalValueSnoc([], b[0]);
    assert [] + [b[0]] == [b[0]];
    DecimalValueSnoc([b[0]], b[1]);
    assert [b[0]] + [b[1]] == b;
  }

  /** Zero-padded four-digit printing (`%04d`). */
  function Pad4(n: nat): (s: string)
    requires n < 10000
    ensures |s| == 4 && AllDigits(s) && DecimalValue(s) == n
  {
    var hi, lo := Pad2(n / 100), Pad2(n % 100);
    DecimalValueAppendPair(hi, lo);
    hi + lo
  }

  /** `strftime('%H:%M')`. */
  function FormatClock(c: ClockTime): string
    requires ValidClock(c)
  {
    Pad2(c.hour) + ":" + Pad2(c.minute)
  }

  /** `strftime('%Y-%m-%d %H:%M')`. */
  function FormatDateTime(d: DateTime): string
    requires ValidDateTime(d)
  {
    Pad4(d.year) + "-" + Pad2(d.month) + "-" + Pad2(d.day) + " " + Pad2(d.hour) + ":" + Pad2(d.minute)
  }

  /** Every valid time of day printed as `HH:MM` is read back as itself. */
  lemma ClockRoundTrip(c: ClockTime)
    requires ValidClock(c)
    ensures ParseClock(FormatClock(c)) == Some(c)
  {
    var s := FormatClock(c);
    assert s[..2] == Pad2(c.hour);
    assert s[3..] == Pad2(c.minute);
  }

  /** Every valid date and time printed as `YYYY-MM-DD HH:MM` is read back as itself. */
  lemma DateTimeRoundTrip(d: DateTime)
    requires ValidDateTime(d)
    ensures ParseDateTime(FormatDateTime(d)) == Some(d)
  {
    var s := FormatDateTime(d);
    assert s[..4] == Pad4(d.year);
    assert s[5..7] == Pad2(d.month);
    assert s[8..10] == Pad2(d.day);
    assert s[11..13] == Pad2(d.hour);
    assert s[14..] == Pad2(d.minute);
  }
}
