/**
 * The projections over the decoded forecast response: the current-conditions
 * summary line, the current time, and the four hourly columns of the table.
 *
 * A reading is a JSON integer, float or null, formatted by the f-string as
 * Python's str() does; the digits of a float are the parameter `floatRepr`.
 * The host's local-time breakdown is the parameter `clock`.
 */
module Forecast {
  import opened Wrappers
  import opened Digits
  import opened TimeFormat

  /** One element of an hourly reading array, as JSON decoding gives it. */
  datatype Reading = Int(i: int) | Float(x: real) | Null

  /** str() of a reading: an int in decimal with its sign, None as "None", a float by `floatRepr`. */
  function Str(r: Reading, floatRepr: real -> string): string {
    match r
    case Int(i) => if i < 0 then "-" + Decimal(-i) else Decimal(i)
    case Float(x) => floatRepr(x)
    case Null => "None"
  }

  /** The text of an int reading reads back as that int. */
  lemma IntStrRoundTrip(i: int, floatRepr: real -> string)
    ensures var s := Str(Int(i), floatRepr);
      |s| > 0 && (s[0] == '-' <==> i < 0) &&
      (if i < 0 then AllDigits(s[1..]) && -(ParseDecimal(s[1..]) as int) == i
       else AllDigits(s) && ParseDecimal(s) == i)
  {
    var s := Str(Int(i), floatRepr);
    if i < 0 {
      assert s[1..] == Decimal(-i);
      DecimalRoundTrip(-i);
    } else {
      DecimalRoundTrip(i);
    }
  }

  /** The "current" object of the response: the is_day flag and the timestamp. */
  datatype Current = Current(isDay: int, time: int)

  /**
   * The decoded response. `hourly` maps each reading field to its array,
   * `hourlyUnits` maps each field to its unit string; "time" is kept apart
   * because it holds timestamps rather than readings.
   */
  datatype Document = Document(
    current: Current,
    timezoneAbbreviation: string,
    hourlyTime: seq<int>,
    hourly: map<string, seq<Reading>>,
    hourlyUnits: map<string, string>)

  const Temperature2m: string := "temperature_2m"
  const RelativeHumidity2m: string := "relative_humidity_2m"
  const ApparentTemperature: string := "apparent_temperature"

  /**
   * A reading field can be extracted when its array is present and, unless the
   * array is empty, its unit too: the comprehension reads the unit once per element.
   */
  predicate HasField(doc: Document, field: string) {
    field in doc.hourly && (doc.hourly[field] != [] ==> field in doc.hourlyUnits)
  }

  /** Every key the extractors read is present; otherwise the source raises KeyError. */
  predicate WellFormed(doc: Document) {
    HasField(doc, Temperature2m) && HasField(doc, RelativeHumidity2m) && HasField(doc, ApparentTemperature)
  }

  /** Every hourly array has as many entries as hourly.time, so the table's columns line up. */
  predicate Aligned(doc: Document)
    requires WellFormed(doc)
  {
    |doc.hourly[Temperature2m]| == |doc.hourlyTime| &&
    |doc.hourly[RelativeHumidity2m]| == |doc.hourlyTime| &&
    |doc.hourly[ApparentTemperature]| == |doc.hourlyTime|
  }

  /** "День" for a truthy is_day, "Ночь" otherwise. */
  function DayNight(isDay: int): string {
    if isDay != 0 then "День" else "Ночь"
  }

  /** get_current_date_time: "(<День|Ночь>) <DD.MM.YYYY HH:MM:SS> <timezone abbreviation>". */
  function CurrentDateTime(doc: Document, clock: LocalClock): (s: string)
    ensures |s| >= 5 && (s[1..5] == "День" <==> doc.current.isDay != 0)
  {
    var dayNight := DayNight(doc.current.isDay);
    var rest := ") " + HumanReadable(clock, doc.current.time, false) + " " + doc.timezoneAbbreviation;
    DayNightLabel(doc.current.isDay);
    assert ("(" + dayNight + rest)[1..5] == dayNight;
    "(" + dayNight + rest
  }

  /** get_current_time: the current timestamp as "HH:MM". */
  function CurrentTime(doc: Document, clock: LocalClock): (s: string)
    ensures ParseTimeOnly(s) == Some((clock(doc.current.time).hour as nat, clock(doc.current.time).minute as nat))
  {
    HumanReadable(clock, doc.current.time, true)
  }

  /** Each timestamp rendered time-only, in order. */
  function TimesOf(stamps: seq<int>, clock: LocalClock): (r: seq<string>)
    ensures |r| == |stamps|
  {
    if stamps == [] then []
    else [HumanReadable(clock, stamps[0], true)] + TimesOf(stamps[1..], clock)
  }

  /** Each reading followed by a space and the unit, in order. */
  function WithUnit(values: seq<Reading>, unit: string, floatRepr: real -> string): (r: seq<string>)
    ensures |r| == |values|
  {
    if values == [] then []
    else [Str(values[0], floatRepr) + " " + unit] + WithUnit(values[1..], unit, floatRepr)
  }

  /** The shared shape of the three reading extractors: hourly[field] with hourly_units[field]. */
  function HourlyReadings(doc: Document, field: string, floatRepr: real -> string): (r: seq<string>)
    requires HasField(doc, field)
    ensures |r| == |doc.hourly[field]|
  {
    if doc.hourly[field] == [] then [] else WithUnit(doc.hourly[field], doc.hourlyUnits[field], floatRepr)
  }

  /** get_horly_time. */
  function HourlyTime(doc: Document, clock: LocalClock): (r: seq<string>)
    ensures |r| == |doc.hourlyTime|
  {
    TimesOf(doc.hourlyTime, clock)
  }

  /** get_hourly_temperature_2m. */
  function HourlyTemperature2m(doc: Document, floatRepr: real -> string): (r: seq<string>)
    requires HasField(doc, Temperature2m)
    ensures |r| == |doc.hourly[Temperature2m]|
  {
    HourlyReadings(doc, Temperature2m, floatRepr)
  }

  /** get_hourly_relative_humidity_2m. */
  function HourlyRelativeHumidity2m(doc: Document, floatRepr: real -> string): (r: seq<string>)
    requires HasField(doc, RelativeHumidity2m)
    ensures |r| == |doc.hourly[RelativeHumidity2m]|
  {
    HourlyReadings(doc, RelativeHumidity2m, floatRepr)
  }

  /** get_hourly_apparent_temperature. */
  function HourlyApparentTemperature(doc: Document, floatRepr: real -> string): (r: seq<string>)
    requires HasField(doc, ApparentTemperature)
    ensures |r| == |doc.hourly[ApparentTemperature]|
  {
    HourlyReadings(doc, ApparentTemperature, floatRepr)
  }

  /** Entry i of the time column is the time-only rendering of timestamp i. */
  lemma {:induction false} TimesOfAt(stamps: seq<int>, clock: LocalClock, i: nat)
    requires i < |stamps|
    ensures TimesOf(stamps, clock)[i] == TimeOnly(clock(stamps[i]))
  {
    if i > 0 {
      TimesOfAt(stamps[1..], clock, i - 1);
    }
  }

  /** Entry i of a reading column is the text of reading i, a space, and the unit. */
  lemma {:induction false} WithUnitAt(values: seq<Reading>, unit: string, floatRepr: real -> string, i: nat)
    requires i < |values|
    ensures WithUnit(values, unit, floatRepr)[i] == Str(values[i], floatRepr) + " " + unit
  {
    if i > 0 {
      WithUnitAt(values[1..], unit, floatRepr, i - 1);
    }
  }

  /** The time column keeps the length and order of hourly.time; each entry is a 5-character "HH:MM". */
  lemma HourlyTimeShape(doc: Document, clock: LocalClock)
    ensures |HourlyTime(doc, clock)| == |doc.hourlyTime|
    ensures forall i :: 0 <= i < |doc.hourlyTime| ==>
      HourlyTime(doc, clock)[i] == TimeOnly(clock(doc.hourlyTime[i])) &&
      ParseTimeOnly(HourlyTime(doc, clock)[i]) == Some((clock(doc.hourlyTime[i]).hour as nat, clock(doc.hourlyTime[i]).minute as nat))
  {
    forall i | 0 <= i < |doc.hourlyTime|
      ensures HourlyTime(doc, clock)[i] == TimeOnly(clock(doc.hourlyTime[i]))
      ensures ParseTimeOnly(HourlyTime(doc, clock)[i]) == Some((clock(doc.hourlyTime[i]).hour as nat, clock(doc.hourlyTime[i]).minute as nat))
    {
      TimesOfAt(doc.hourlyTime, clock, i);
      TimeOnlyRoundTrip(clock(doc.hourlyTime[i]));
    }
  }

  /**
   * A reading column keeps the length and order of hourly[field], and entry i is
   * the text of reading i followed by " " and the unit stored under the same field.
   */
  lemma HourlyReadingsShape(doc: Document, field: string, floatRepr: real -> string)
    requires HasField(doc, field)
    ensures |HourlyReadings(doc, field, floatRepr)| == |doc.hourly[field]|
    ensures forall i :: 0 <= i < |doc.hourly[field]| ==>
      HourlyReadings(doc, field, floatRepr)[i] == Str(doc.hourly[field][i], floatRepr) + " " + doc.hourlyUnits[field]
  {
    forall i | 0 <= i < |doc.hourly[field]|
      ensures HourlyReadings(doc, field, floatRepr)[i] == Str(doc.hourly[field][i], floatRepr) + " " + doc.hourlyUnits[field]
    {
      WithUnitAt(doc.hourly[field], doc.hourlyUnits[field], floatRepr, i);
    }
  }

  /** get_hourly_temperature_2m: "<reading> <hourly_units.temperature_2m>" for each hourly temperature. */
  lemma HourlyTemperature2mShape(doc: Document, floatRepr: real -> string)
    requires HasField(doc, Temperature2m)
    ensures |HourlyTemperature2m(doc, floatRepr)| == |doc.hourly[Temperature2m]|
    ensures forall i :: 0 <= i < |doc.hourly[Temperature2m]| ==>
      HourlyTemperature2m(doc, floatRepr)[i] == Str(doc.hourly[Temperature2m][i], floatRepr) + " " + doc.hourlyUnits[Temperature2m]
  {
    HourlyReadingsShape(doc, Temperature2m, floatRepr);
  }

  /** get_hourly_relative_humidity_2m: "<reading> <hourly_units.relative_humidity_2m>" for each reading. */
  lemma HourlyRelativeHumidity2mShape(doc: Document, floatRepr: real -> string)
    requires HasField(doc, RelativeHumidity2m)
    ensures |HourlyRelativeHumidity2m(doc, floatRepr)| == |doc.hourly[RelativeHumidity2m]|
    ensures forall i :: 0 <= i < |doc.hourly[RelativeHumidity2m]| ==>
      HourlyRelativeHumidity2m(doc, floatRepr)[i] == Str(doc.hourly[RelativeHumidity2m][i], floatRepr) + " " + doc.hourlyUnits[RelativeHumidity2m]
  {
    HourlyReadingsShape(doc, RelativeHumidity2m, floatRepr);
  }

  /** get_hourly_apparent_temperature: "<reading> <hourly_units.apparent_temperature>" for each reading. */
  lemma HourlyApparentTemperatureShape(doc: Document, floatRepr: real -> string)
    requires HasField(doc, ApparentTemperature)
    ensures |HourlyApparentTemperature(doc, floatRepr)| == |doc.hourly[ApparentTemperature]|
    ensures forall i :: 0 <= i < |doc.hourly[ApparentTemperature]| ==>
      HourlyApparentTemperature(doc, floatRepr)[i] == Str(doc.hourly[ApparentTemperature][i], floatRepr) + " " + doc.hourlyUnits[ApparentTemperature]
  {
    HourlyReadingsShape(doc, ApparentTemperature, floatRepr);
  }

  /**
   * The summary line splits into the label, the full timestamp and the
   * timezone abbreviation; the label is "День" exactly when is_day is truthy,
   * and the timestamp part parses back to the current local time.
   */
  lemma CurrentDateTimeParts(doc: Document, clock: LocalClock)
    ensures var s := CurrentDateTime(doc, clock);
      var f := Full(clock(doc.current.time));
      var tz := doc.timezoneAbbreviation;
      |s| == 8 + |f| + |tz| &&
      s[..7] == "(" + DayNight(doc.current.isDay) + ") " &&
      (s[1..5] == "День" <==> doc.current.isDay != 0) &&
      (s[1..5] == "Ночь" <==> doc.current.isDay == 0) &&
      ParseFull(s[7..7 + |f|]) == Some(clock(doc.current.time)) &&
      s[7 + |f|..] == " " + tz
  {
    var s := CurrentDateTime(doc, clock);
    var t := clock(doc.current.time);
    var f := Full(t);
    var dayNight := DayNight(doc.current.isDay);
    var head := "(" + dayNight + ") ";
    assert s == head + f + (" " + doc.timezoneAbbreviation);
    assert s[..7] == head;
    assert s[1..5] == head[1..5] == dayNight;
    DayNightLabel(doc.current.isDay);
    assert s[7..7 + |f|] == f;
    FullRoundTrip(t);
  }

  /** The two labels differ, so each one identifies the truth value of is_day. */
  lemma DayNightLabel(isDay: int)
    ensures |DayNight(isDay)| == 4
    ensures DayNight(isDay) == "День" <==> isDay != 0
    ensures DayNight(isDay) == "Ночь" <==> isDay == 0
  {
    assert "День"[0] != "Ночь"[0];
  }

  /** get_current_time is the "HH:MM" part of the summary line's timestamp, for four-digit years. */
  lemma CurrentTimeInSummary(doc: Document, clock: LocalClock)
    requires 1000 <= clock(doc.current.time).year
    ensures CurrentTime(doc, clock) == CurrentDateTime(doc, clock)[18..23]
  {
    var s := CurrentDateTime(doc, clock);
    var t := clock(doc.current.time);
    FullShapeFourDigitYear(t);
    CurrentDateTimeParts(doc, clock);
    assert s[7..26] == Full(t);
    assert s[18..23] == Full(t)[11..16];
  }

  /** get_current_time reads current.time and nothing else of the response. */
  lemma CurrentTimeReadsOnlyTime(doc: Document, other: Document, clock: LocalClock)
    requires doc.current.time == other.current.time
    ensures CurrentTime(doc, clock) == CurrentTime(other, clock)
    ensures ParseTimeOnly(CurrentTime(doc, clock)) ==
      Some((clock(doc.current.time).hour as nat, clock(doc.current.time).minute as nat))
  {
    TimeOnlyRoundTrip(clock(doc.current.time));
  }

  /** The table's column headers, in the order main adds them. */
  const ColumnNames: seq<string> := ["Время", "Температура", "Относительная влажность", "Кажущаяся температура"]

  /** The four columns main adds to the table, in order: time, temperature, humidity, apparent temperature. */
  function Columns(doc: Document, clock: LocalClock, floatRepr: real -> string): (cols: seq<seq<string>>)
    requires WellFormed(doc)
    ensures |cols| == |ColumnNames|
    ensures Aligned(doc) <==> forall c :: 0 <= c < |cols| ==> |cols[c]| == |doc.hourlyTime|
  {
    var cols := [HourlyTime(doc, clock), HourlyTemperature2m(doc, floatRepr),
                 HourlyRelativeHumidity2m(doc, floatRepr), HourlyApparentTemperature(doc, floatRepr)];
    assert |cols[1]| == |doc.hourly[Temperature2m]| && |cols[2]| == |doc.hourly[RelativeHumidity2m]| &&
           |cols[3]| == |doc.hourly[ApparentTemperature]|;
    cols
  }

  /**
   * For an aligned response every column has one entry per hourly sample, and row i
   * holds the time, temperature, humidity and apparent temperature of sample i.
   */
  lemma ColumnsRow(doc: Document, clock: LocalClock, floatRepr: real -> string, i: nat)
    requires WellFormed(doc) && Aligned(doc) && i < |doc.hourlyTime|
    ensures var cols := Columns(doc, clock, floatRepr);
      |cols| == |ColumnNames| &&
      (forall c :: 0 <= c < |cols| ==> |cols[c]| == |doc.hourlyTime|) &&
      cols[0][i] == TimeOnly(clock(doc.hourlyTime[i])) &&
      cols[1][i] == Str(doc.hourly[Temperature2m][i], floatRepr) + " " + doc.hourlyUnits[Temperature2m] &&
      cols[2][i] == Str(doc.hourly[RelativeHumidity2m][i], floatRepr) + " " + doc.hourlyUnits[RelativeHumidity2m] &&
      cols[3][i] == Str(doc.hourly[ApparentTemperature][i], floatRepr) + " " + doc.hourlyUnits[ApparentTemperature]
  {
    HourlyTimeShape(doc, clock);
    HourlyTemperature2mShape(doc, floatRepr);
    HourlyRelativeHumidity2mShape(doc, floatRepr);
    HourlyApparentTemperatureShape(doc, floatRepr);
  }

  /** A two-hour response in daytime, zone "MSK", readings 10/12 °C, 50/55 %, 9/11 °C. */
  const TwoHourResponse: Document := Document(Current(1, 0), "MSK", [0, 3600],
    map[Temperature2m := [Int(10), Int(12)], RelativeHumidity2m := [Int(50), Int(55)], ApparentTemperature := [Int(9), Int(11)]],
    map[Temperature2m := "°C", RelativeHumidity2m := "%", ApparentTemperature := "°C"])

  /** The two-hour response gives two rows; the first reads its time, "10 °C", "50 %" and "9 °C". */
  lemma TwoHourRows(clock: LocalClock, floatRepr: real -> string)
    ensures WellFormed(TwoHourResponse)
    ensures var cols := Columns(TwoHourResponse, clock, floatRepr);
      |cols[0]| == 2 && cols[0][0] == TimeOnly(clock(0)) &&
      cols[1][0] == "10 °C" && cols[2][0] == "50 %" && cols[3][0] == "9 °C"
  {
    var doc := TwoHourResponse;
    assert doc.hourly[Temperature2m][0] == Int(10) && doc.hourlyUnits[Temperature2m] == "°C";
    assert doc.hourly[RelativeHumidity2m][0] == Int(50) && doc.hourlyUnits[RelativeHumidity2m] == "%";
    assert doc.hourly[ApparentTemperature][0] == Int(9) && doc.hourlyUnits[ApparentTemperature] == "°C";
    assert WellFormed(doc) && Aligned(doc);
    assert Str(Int(10), floatRepr) == "10" && Str(Int(50), floatRepr) == "50" && Str(Int(9), floatRepr) == "9";
    ColumnsRow(doc, clock, floatRepr, 0);
  }

  /** The two-hour response's summary line starts with "(День" and ends with "MSK". */
  lemma TwoHourSummary(clock: LocalClock)
    ensures var s := CurrentDateTime(TwoHourResponse, clock);
      s[..5] == "(День" && s[|s| - 3..] == "MSK"
  {
    var s := CurrentDateTime(TwoHourResponse, clock);
    var f := Full(clock(0));
    CurrentDateTimeParts(TwoHourResponse, clock);
    assert s[..5] == s[..7][..5];
    assert s[|s| - 3..] == s[7 + |f|..][1..];
  }
}
