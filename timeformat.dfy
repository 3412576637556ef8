/**
 * unix_time_to_human_readable: a UNIX timestamp is broken down into local
 * wall-clock fields by the host's date library, then assembled into a string
 * by strftime with "%H:%M" (time only) or "%d.%m.%Y %H:%M:%S" (full).
 *
 * The breakdown depends on the host time zone and the library, so it is a
 * parameter of type LocalClock; only its range guarantees are assumed. The
 * string assembly on top of it is concrete.
 */
module TimeFormat {
  import opened Wrappers
  import opened Digits

  /** The fields of a broken-down local time that the two formats use. */
  datatype DateTime = DateTime(day: int, month: int, year: int, hour: int, minute: int, second: int)
  {
    /** The ranges Python's datetime guarantees for each field. */
    predicate InRange() {
      1 <= day <= 31 && 1 <= month <= 12 && 1 <= year <= 9999 &&
      0 <= hour <= 23 && 0 <= minute <= 59 && 0 <= second <= 59
    }
  }

  type LocalTime = t: DateTime | t.InRange() witness DateTime(1, 1, 1970, 0, 0, 0)

  /** The host's conversion from seconds since the epoch to local wall-clock fields. */
  type LocalClock = int -> LocalTime

  /** "%H:%M": zero-padded hour and minute. */
  function TimeOnly(t: LocalTime): (s: string)
    ensures |s| == 5 && s[2] == ':'
    ensures AllDigits(s[..2]) && AllDigits(s[3..])
  {
    Pad2(t.hour) + ":" + Pad2(t.minute)
  }

  /** "%d.%m.%Y %H:%M:%S"; the year is written without padding. */
  function Full(t: LocalTime): (s: string)
    ensures |s| == 15 + |Decimal(t.year)|
  {
    Pad2(t.day) + "." + Pad2(t.month) + "." + Decimal(t.year) + " " +
    Pad2(t.hour) + ":" + Pad2(t.minute) + ":" + Pad2(t.second)
  }

  /** unix_time_to_human_readable(timestamp, time_only). */
  function HumanReadable(clock: LocalClock, timestamp: int, timeOnly: bool): (s: string)
    ensures timeOnly ==> ParseTimeOnly(s) == Some((clock(timestamp).hour as nat, clock(timestamp).minute as nat))
    ensures !timeOnly ==> ParseFull(s) == Some(clock(timestamp))
  {
    var t := clock(timestamp);
    TimeOnlyRoundTrip(t);
    FullRoundTrip(t);
    if timeOnly then TimeOnly(t) else Full(t)
  }

  /** Reads "HH:MM" back into (hour, minute); None for any other shape. */
  function ParseTimeOnly(s: string): Option<(nat, nat)>
  {
    if |s| == 5 && s[2] == ':' && AllDigits(s[..2]) && AllDigits(s[3..])
    then Some((ParseDecimal(s[..2]), ParseDecimal(s[3..])))
    else None
  }

  /** Reads "DD.MM.Y... HH:MM:SS" back into its fields; None for any other shape. */
  function ParseFull(s: string): Option<DateTime>
  {
    if |s| >= 16 && s[2] == '.' && s[5] == '.' && s[|s| - 9] == ' ' &&
       AllDigits(s[..2]) && AllDigits(s[3..5]) && AllDigits(s[6..|s| - 9]) &&
       ParseTimeOnly(s[|s| - 8..|s| - 3]).Some? &&
       s[|s| - 3] == ':' && AllDigits(s[|s| - 2..])
    then
      var hm := ParseTimeOnly(s[|s| - 8..|s| - 3]).value;
      Some(DateTime(ParseDecimal(s[..2]), ParseDecimal(s[3..5]), ParseDecimal(s[6..|s| - 9]),
                    hm.0, hm.1, ParseDecimal(s[|s| - 2..])))
    else None
  }

  /** The time-only form loses nothing but the date and seconds: it gives back hour and minute. */
  lemma TimeOnlyRoundTrip(t: LocalTime)
    ensures ParseTimeOnly(TimeOnly(t)) == Some((t.hour as nat, t.minute as nat))
  {
    var s := TimeOnly(t);
    assert s[..2] == Pad2(t.hour) && s[3..] == Pad2(t.minute);
    Pad2RoundTrip(t.hour);
    Pad2RoundTrip(t.minute);
  }

  /** The time-only form sits inside the full form: it is the "HH:MM" before ":SS". */
  lemma TimeOnlyInFull(t: LocalTime)
    ensures var f := Full(t); TimeOnly(t) == f[|f| - 8..|f| - 3]
  {
    var f := Full(t);
    var date := Pad2(t.day) + "." + Pad2(t.month) + "." + Decimal(t.year) + " ";
    assert f == date + TimeOnly(t) + ":" + Pad2(t.second);
    assert f[|date|..|date| + 5] == TimeOnly(t);
  }

  /** For four-digit years the full form has 19 characters and holds the time-only form at 11..15. */
  lemma FullShapeFourDigitYear(t: LocalTime)
    requires 1000 <= t.year
    ensures |Full(t)| == 19
    ensures TimeOnly(t) == Full(t)[11..16]
  {
    DecimalLengthFour(t.year);
    TimeOnlyInFull(t);
  }

  /** The full form loses nothing: parsing it gives back every field. */
  lemma FullRoundTrip(t: LocalTime)
    ensures ParseFull(Full(t)) == Some(t)
  {
    var f := Full(t);
    var y := Decimal(t.year);
    var n := |f|;
    var tail := " " + TimeOnly(t) + ":" + Pad2(t.second);
    assert f == Pad2(t.day) + "." + Pad2(t.month) + "." + y + tail;
    assert f[n - 9..] == tail;
    assert f[2] == '.' && f[5] == '.' && f[n - 9] == ' ' && f[n - 3] == ':';
    assert f[..2] == Pad2(t.day);
    assert f[3..5] == Pad2(t.month);
    assert f[6..n - 9] == y;
    TimeOnlyInFull(t);
    TimeOnlyRoundTrip(t);
    assert f[n - 2..] == Pad2(t.second);
    Pad2RoundTrip(t.day);
    Pad2RoundTrip(t.month);
    Pad2RoundTrip(t.second);
    DecimalRoundTrip(t.year);
  }

  /** Two local times with the same full rendering are the same local time. */
  lemma FullInjective(t: LocalTime, u: LocalTime)
    requires Full(t) == Full(u)
    ensures t == u
  {
    FullRoundTrip(t);
    FullRoundTrip(u);
  }
}
