# Weather report rules, in Dafny

`weather_report.py` sends a daily WeChat message that gives the weather for one
district of Taiyuan. It fetches a forecast and a "sentence of the day" over HTTP.
It then words the forecast, picks a few friendly tips and posts the result. This
project models the part of the script that decides what the message says:

- the temperature text `min～max℃`;
- the eight-sector compass label for a wind bearing;
- the wind text: `微风` (light breeze) up to speed 1, otherwise `<direction> <speed> km/h`;
- the table that turns the forecast's English description into a Chinese label, with `多云` as the default;
- the tips "take an umbrella" and "keep warm", joined by `；`;
- the rule for the sentence of the day: take the first fetched sentence whose
  stripped length is 4 to 18, otherwise use one of five built-in sentences.

There are two modules:

- `Text` (text.dfy) holds the Python string built-ins these rules rely on.
  These are decimal rendering of integers (`str(n)` inside f-strings),
  `str.strip()` and `str.join`. Decimal rendering and joining come with the
  reader that undoes them; `strip()`, which loses information, comes with
  `StripSlice`, which characterises its result exactly.
- `WeatherReport` (weather_report.dfy) holds the rules themselves.

Each text the report produces has a reader, and a round-trip lemma shows that
the reader recovers the values the text was made from: `ParseTemp` for the
temperature and `ParseWind` for the wind. The compass rule is also checked
against `CompassByRange`, a second definition written as the table of degree
ranges (0–22 and 338–359 north, 23–67 north-east, …).

The bearing is an integer when it reaches `wind_dir_from_degree`, because the
caller converts it with `int(...)`. So `int((deg + 22.5) // 45) % 8` is computed
exactly as `((2 * deg + 45) / 90) % 8`. With a positive divisor, Dafny's `/` and
`%` round toward negative infinity, as Python's `//` and `%` do.

Everything the network supplies is an input:

- The forecast fields come in as a `Forecast` value. `Absent` and `Blank` stand
  for a missing key and an empty string.
- Each of the five requests for the sentence of the day comes in as an
  `Option<string>`. `None` is a request or decoding that raised.
- `random.choice` becomes a free choice of any built-in sentence.

## Model

| member | source | states |
|---|---|---|
| `Text.NatToDecimal` | weather_report.py:38-39 | the decimal text of a natural number is non-empty, all digits, and has no leading zero |
| `Text.IntToDecimal` | weather_report.py:38-39 | `str(n)` starts with '-' exactly for negative n, and every other character is a digit |
| `Text.ParseNatToDecimal` | weather_report.py:38-39 | reading the digits of n gives n back |
| `Text.DecimalRoundTrip` | weather_report.py:38-39 | reading `str(n)` back gives n for every integer, negative ones included |
| `Text.DecimalInjective` | weather_report.py:45-49 | two integers have the same decimal text only when they are equal |
| `Text.TrimStart` | weather_report.py:102 | everything removed from the front is whitespace, and the result does not start with whitespace |
| `Text.TrimStartSuffix` | weather_report.py:102 | what remains after removing leading whitespace is a suffix of the input |
| `Text.TrimEnd` | weather_report.py:102 | everything removed from the back is whitespace, and the result does not end with whitespace |
| `Text.TrimEndPrefix` | weather_report.py:102 | what remains after removing trailing whitespace is a prefix of the input |
| `Text.Strip` | weather_report.py:102 | `strip()` is never longer than its input and leaves no whitespace at either end |
| `Text.StripSlice` | weather_report.py:102 | `strip()` returns a contiguous slice of the input and removes only whitespace, from both ends |
| `Text.StripIdempotent` | weather_report.py:102 | stripping twice is the same as stripping once |
| `Text.Join` | weather_report.py:117 | joining no parts gives "", and joining one part gives that part |
| `Text.SplitJoin` | weather_report.py:117 | splitting the joined text at the separator gives back the parts, when no part contains the separator |
| `WeatherReport.FormatTemp` | weather_report.py:38-39 | `format_temp`: the text `min～max℃` can be read back into exactly (min, max) |
| `WeatherReport.TempInjective` | weather_report.py:38-39 | two temperature texts are equal if and only if both bounds are equal |
| `WeatherReport.WindIndex` | weather_report.py:41-43 | the sector index is in 0..7 for every integer bearing |
| `WeatherReport.WindDir` | weather_report.py:41-43 | the result is always one of the eight labels in `dirs` |
| `WeatherReport.WindIndexNormalised` | weather_report.py:43 | the index depends only on the bearing modulo 360 |
| `WeatherReport.WindDirMatchesCompass` | weather_report.py:42-43 | for every integer bearing the label is the one the range table gives: 0–22 and 338–359 北风, 23–67 东北风, 68–112 东风, …, 293–337 西北风 |
| `WeatherReport.SectorBounds` | weather_report.py:43 | sector k is centred on 45k and holds exactly the bearings 45k−22 .. 45k+22; every bearing in it gets index k mod 8 |
| `WeatherReport.WindDirPeriodic` | weather_report.py:43 | adding 360 to the bearing does not change the label |
| `WeatherReport.WindDirSameIff` | weather_report.py:42-43 | two bearings get the same label if and only if they get the same sector index, because the eight labels are distinct |
| `WeatherReport.FormatWind` | weather_report.py:45-49 | `format_wind`: the text reads back as calm when speed ≤ 1, whatever the bearing; otherwise it reads back as the sector label of the bearing and the speed |
| `WeatherReport.CalmIff` | weather_report.py:45-49 | the wind text is "微风" if and only if the speed is at most 1 |
| `WeatherReport.WeatherLabel` | weather_report.py:64-75 | the label is always one of 晴, 多云, 阴, 小雨, 中雨, 大雨, 下雪 |
| `WeatherReport.WeatherLabelPreimage` | weather_report.py:64-75 | for each label, exactly which descriptions give it; 多云 comes from "Partly Cloudy" and from every description not in the table |
| `WeatherReport.RainyDescriptions` | weather_report.py:64-75 | the label contains 雨 exactly for "Light rain", "Moderate rain" and "Heavy rain" |
| `WeatherReport.GetTips` | weather_report.py:111-117 | "" when there is no rain and min > 1; the umbrella tip alone; the warm tip alone; or umbrella, then "；", then warm. 伞 appears iff the weather contains 雨, 暖 appears iff min ≤ 1, and splitting at "；" gives the tip list in order; max has no effect |
| `WeatherReport.FallbackFits` | weather_report.py:18-25 | every built-in sentence is 4 to 18 characters long |
| `WeatherReport.FirstAccepted` | weather_report.py:99-104 | the index of the first attempt whose stripped sentence is 4 to 18 characters long; every earlier attempt failed or was rejected; the index equals the number of attempts when no attempt is accepted |
| `WeatherReport.DailyLove` | weather_report.py:97-108 | the result is 4 to 18 characters long. If some attempt yields an acceptable stripped sentence, the result is the first such sentence. Otherwise the result is one of the built-in sentences |
| `WeatherReport.GetWeather` | weather_report.py:52-83 | fails exactly when the wind speed is an empty string. Otherwise: the region is fixed; the bounds are passed through; the weather is the table's label for the description, hence one of the seven labels; the temperature text is `FormatTemp` of the bounds and reads back as them; the wind text is `FormatWind` of the speed and bearing and reads back as calm or as (range-table label of the bearing, speed). A missing speed gives "微风", and a missing or empty bearing counts as 0 |

## Left out

- `request_with_retry`, `get_access_token` and every `requests` call are not modelled. These are HTTP I/O with timeouts, `time.sleep` back-off and printed log lines. Their results enter the model as inputs.
- `send_weather` and `main` are not modelled. They read the `OPEN_ID`, `APP_ID`, `APP_SECRET` and `TEMPLATE_ID` environment variables, build the template payload, loop over recipients and POST. All of that is configuration and remote side effects.
- The date line `datetime.date.today().strftime(...)` is not modelled: it depends on the wall clock.
- Reading fields out of the forecast JSON (`data["weather"][0]["hourly"][0]` and so on) is not modelled, because it depends on the remote API's shape. `Forecast` holds the extracted values.
- `WeatherReport.GetWeather`: the temperatures arrive as integers. Strings that `int(...)` cannot convert are not modelled. Such failures are runtime exceptions on external data. The one such case modelled is an empty wind speed.
- `WeatherReport.DailyLove`: only which sentence may be returned is modelled. The choice among fallback sentences is any member of the list, not a uniform distribution. Sleeps and log lines are not modelled. A `returnObj` value that is not a list is treated like any other failed request.
- `WeatherReport.WindIndex`: the bearing is treated as an exact integer. Python adds 22.5 in floating point, so for a bearing beyond about 2^52 in size rounding can differ. Beyond about 1.8e308, Python raises `OverflowError`.
- `Text.ParseDecimal` reads an optional '-' followed by one or more digits, leading zeros included ("007" reads as 7, "-0" as 0). It is a reader for the texts the model writes, not a model of Python's `int()`, which also accepts surrounding whitespace, a '+' sign and '_' separators.
