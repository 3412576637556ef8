# weather_app in Dafny

A model of the console weather script `project.py`: the fixed city registry and
the selection loop that turns what the user types into a city, and the pure
projections that turn a decoded Open-Meteo forecast response into the summary
line and the four columns of the hourly table.

Modules:

- `Wrappers` (`wrappers.dfy`): `Option`.
- `Digits` (`digits.dfy`): decimal and two-digit zero-padded rendering of
  natural numbers (`str()` of the menu number, strftime's `%d %m %H %M %S`
  and `%Y`) with the parser that inverts it.
- `Registry` (`registry.dfy`): `Coordinates`, the ordered `Cities` registry
  and the numbered menu.
- `Selection` (`selection.dfy`): the `while True` loop of `main` as a method
  over the sequence of lines the user types, Python list indexing with
  negative wrap-around, and the uncaught `ValueError`/`EOFError` exits.
- `TimeFormat` (`timeformat.dfy`): `unix_time_to_human_readable`. The
  host's local-time breakdown is a parameter `clock` whose results are
  in-range date-time fields; the zero-padded `HH:MM` and
  `DD.MM.YYYY HH:MM:SS` assembly is concrete, with parsers proving that
  nothing is lost.
- `Forecast` (`forecast.dfy`): the response record, the summary line,
  the current time and the four hourly extractors. A reading is a JSON int,
  float or null; the text of a float is a parameter `floatRepr`.

The model follows what the code does, including where that differs from what the menu and the request suggest:

- Selections `0` down to `-3` are accepted, because a negative list index
  counts from the end. The menu only offers 1..4.
- Non-integer input raises an uncaught `ValueError` that ends the program.
  Only an out-of-range integer is answered with a re-prompt.
- `datetime.fromtimestamp` uses the host's time zone, not the
  `Europe/Moscow` zone named in the request URL. This is why `clock` is a parameter.
- `%Y` is modelled as glibc's strftime writes it: the year without padding.
  The 19-character shape is therefore proved for years 1000..9999.

## Model

| member | source | states |
|---|---|---|
| `Registry.CitiesWellFormed` | project.py:24-29 | the constant `Registry.Cities` (the `CITIES` dict in its order) has four entries with distinct names |
| `Registry.MenuLine` | project.py:126-127 | the menu line for entry k is a digit string that reads back as k + 1, ") " and the name of entry k (stated by `Selection.MenuNumberSelects`) |
| `Registry.Menu` | project.py:125-127 | the menu is the title followed by one line per entry, one more line than there are entries (stated by `Selection.MenuNumberSelects`) |
| `Selection.MenuNumberSelects` | project.py:125-132 | the menu has the title and one more line than there are entries; line k+1 is a digit string reading back as k + 1, ") " and the name of entry k, and typing that number selects entry k |
| `Selection.PyIndex` | project.py:132 | Python list indexing succeeds iff -n <= i < n, and then reads position i mod n |
| `Selection.Lookup` | project.py:132 | indexing the key list at selection - 1; its contract is carried by `Selection.ChosenPosition` and `Selection.AcceptanceRange` |
| `Selection.SelectCity` | project.py:129-136 | the loop ends on the first line that is not an out-of-range integer: a selected city read by Python indexing at `selection - 1`, or `ValueError` for a non-integer; every earlier line was an out-of-range integer answered by one "Неверный выбор..."; with no line left it ends with `EOFError` |
| `Selection.AcceptanceRange` | project.py:132-135 | with four cities an integer is accepted iff it lies in -3..4 |
| `Selection.ChosenPosition` | project.py:132 | 1..n selects entry selection-1; 1-n..0 selects entry n+selection-1; both are entry (selection-1) mod n, and anything else is refused |
| `Selection.ZeroSelectsLastCity` | project.py:132 | typing 0 selects Санкт-Петербург and -3 selects Дубна |
| `Selection.NotIntegerEndsLoop` | project.py:129-136 | the lines "abc", 99, 2 end the loop at once with `ValueError` and no message |
| `Selection.SelectCityIntended` | project.py:125-136 | the corrected loop accepts exactly 1..n, selects entry selection-1, and re-prompts on every other line, integer or not |
| `Selection.NotIntegerReprompts` | project.py:125-136 | under the corrected loop "abc", 99, 2 prints two "Неверный выбор..." and selects Москва |
| `Digits.DecimalRoundTrip` | project.py:127 | the decimal form of a number parses back to the number |
| `Digits.Pad2RoundTrip` | project.py:54-56 | a two-digit zero-padded field parses back to its value |
| `Digits.DecimalLengthFour` | project.py:56 | the year has four characters iff it lies in 1000..9999 |
| `TimeFormat.HumanReadable` | project.py:47-56 | with `time_only` the result parses back to the local hour and minute; without it, to every field of the local time |
| `TimeFormat.TimeOnly` | project.py:53-54 | the time-only form is 5 characters: two digits, a colon and two digits |
| `TimeFormat.Full` | project.py:55-56 | the full form is 15 characters plus the digits of the year |
| `TimeFormat.TimeOnlyRoundTrip` | project.py:52-54 | the time-only form parses back to the hour and minute of the local time |
| `TimeFormat.FullRoundTrip` | project.py:52-56 | the full form parses back to every field of the local time |
| `TimeFormat.FullInjective` | project.py:55-56 | two local times with the same full form are equal |
| `TimeFormat.TimeOnlyInFull` | project.py:53-56 | the time-only form is the full form without its date and its ":SS" |
| `TimeFormat.FullShapeFourDigitYear` | project.py:53-56 | for four-digit years the full form has 19 characters and characters 11..15 are the time-only form |
| `Forecast.Str` | project.py:92 | the f-string text of a reading: an int in decimal with its sign, null as "None", a float by `floatRepr`; its contract is carried by `Forecast.IntStrRoundTrip` |
| `Forecast.IntStrRoundTrip` | project.py:92 | the text of an int reading starts with "-" iff it is negative and reads back as that int |
| `Forecast.HourlyTime` | project.py:75-83 | `get_horly_time` has one entry per `hourly.time` timestamp |
| `Forecast.HourlyReadings` | project.py:91-117 | a reading extractor has one entry per reading of `hourly[field]` |
| `Forecast.HourlyTemperature2m` | project.py:86-94 | `get_hourly_temperature_2m` has one entry per `hourly.temperature_2m` reading |
| `Forecast.HourlyRelativeHumidity2m` | project.py:97-105 | `get_hourly_relative_humidity_2m` has one entry per `hourly.relative_humidity_2m` reading |
| `Forecast.HourlyApparentTemperature` | project.py:108-117 | `get_hourly_apparent_temperature` has one entry per `hourly.apparent_temperature` reading |
| `Forecast.CurrentDateTime` | project.py:59-64 | the label inside the parentheses is "День" iff `is_day` is truthy |
| `Forecast.CurrentTime` | project.py:67-72 | `get_current_time` parses back to the hour and minute of `current.time` |
| `Forecast.TimesOf` | project.py:80-83 | the time column has one entry per timestamp |
| `Forecast.WithUnit` | project.py:91-94 | a reading column has one entry per reading |
| `Forecast.TimesOfAt` | project.py:80-83 | entry i of the time column is the time-only form of timestamp i |
| `Forecast.WithUnitAt` | project.py:91-94 | entry i of a reading column is the text of reading i, a space, and the unit |
| `Forecast.HourlyTimeShape` | project.py:75-83 | `get_horly_time` keeps the length and order of `hourly.time` and each entry parses back to that timestamp's hour and minute |
| `Forecast.HourlyReadingsShape` | project.py:91-117 | a reading extractor keeps the length and order of `hourly[field]`, writes each reading as `str()` does, and suffixes the unit stored under the same field |
| `Forecast.HourlyTemperature2mShape` | project.py:86-94 | `get_hourly_temperature_2m` entry i is reading i, a space and `hourly_units.temperature_2m` |
| `Forecast.HourlyRelativeHumidity2mShape` | project.py:97-105 | `get_hourly_relative_humidity_2m` entry i is reading i, a space and `hourly_units.relative_humidity_2m` |
| `Forecast.HourlyApparentTemperatureShape` | project.py:108-117 | `get_hourly_apparent_temperature` entry i is reading i, a space and `hourly_units.apparent_temperature` |
| `Forecast.CurrentDateTimeParts` | project.py:59-64 | the summary line is "(", the label, ") ", the full time, " " and the zone; the label is "День" iff `is_day` is truthy and "Ночь" iff it is not; the time part parses back to the current local time |
| `Forecast.DayNightLabel` | project.py:64 | the label is four characters, "День" exactly when `is_day` is truthy and "Ночь" exactly when it is not |
| `Forecast.CurrentTimeInSummary` | project.py:64-72 | for four-digit years `get_current_time` is characters 18..22 of the summary line |
| `Forecast.CurrentTimeReadsOnlyTime` | project.py:67-72 | `get_current_time` depends on `current.time` alone and parses back to its hour and minute |
| `Forecast.Columns` | project.py:140-157 | the table gets four columns, and they all have one entry per `hourly.time` timestamp iff the response is aligned |
| `Forecast.ColumnsRow` | project.py:140-157 | for an aligned response the four columns are time, temperature, humidity, apparent temperature, each with one entry per hour, and row i holds sample i of each |
| `Forecast.TwoHourRows` | project.py:140-157 | a two-hour response gives two rows; the first reads its time, "10 °C", "50 %" and "9 °C" |
| `Forecast.TwoHourSummary` | project.py:64 | that response's summary line starts with "(День" and ends with "MSK" |

## Left out

- `get_weather_data` (project.py:32-44): the URL formatting, the HTTP GET with its 60-second timeout, the status check and `exit()`, and JSON decoding are network I/O and process exit. The extractors take the decoded response as input.
- Table rendering and printing (project.py:125-127 output, 135, 140-161): `PrettyTable` is a foreign library and `print` is console output. The model keeps the column headers `ColumnNames`, the column order (`Columns`) and the text of the menu and messages.
- `datetime.fromtimestamp`: the host-dependent conversion is the parameter `clock`. The model assumes it succeeds with in-range fields. Its `OverflowError`/`OSError` for absurd timestamps is not modelled.
- `floatRepr`: Python's shortest round-trip text of a float reading is float formatting and stays a parameter. Int and null readings are written concretely (`Forecast.Str`).
- `int()` on a raw line: which texts Python accepts (whitespace, a sign, underscores) is abstracted into `Line` = an integer or not an integer.
- `KeyError` on a response missing a key: each reading extractor requires its own `hourly[field]`, and `hourly_units[field]` whenever that array is non-empty (the comprehension reads the unit once per element, so an empty array needs no unit). `Columns` and `ColumnsRow` require this of all three fields.
- `Coordinates` values are exact decimals (`real`), not binary floats; only names and order matter to the selection. The Kazan entry keeps its swapped latitude and longitude as written.

## Findings

| source | as written | input that shows it | evidently intended | confidence | as-written member | corrected member |
|---|---|---|---|---|---|---|
| project.py:132 | the selection minus one indexes the key list, so zero and negative numbers index from the end | `0` selects Санкт-Петербург, `-3` selects Дубна | only the menu numbers 1..4 select a city; others re-prompt | medium, not executed | `Selection.ZeroSelectsLastCity` | `Selection.SelectCityIntended` |
| project.py:131-134 | only `IndexError` is caught, so `ValueError` from `int()` escapes the loop | `abc` ends the program with a traceback | a non-integer line re-prompts like an out-of-range number | medium, not executed | `Selection.NotIntegerEndsLoop` | `Selection.NotIntegerReprompts` |
