/**
 * The decision and formatting rules of the daily weather report: how the
 * temperature, the wind and the weather are worded, which friendly tips are
 * added, and which "sentence of the day" is shown. Fetching the forecast,
 * fetching the sentence and posting the message are done elsewhere; here
 * their results are inputs.
 */
module WeatherReport {
  import opened Text

  // ---------------------------------------------------------------------------
  // Temperature
  // ---------------------------------------------------------------------------

  /** Reads a temperature text back into its two bounds. */
  function ParseTemp(s: string): Option<(int, int)> {
    var i := Find(s, '～');
    if i + 1 < |s| && s[|s| - 1] == '℃' then
      match (ParseDecimal(s[..i]), ParseDecimal(s[i + 1..|s| - 1]))
      case (Some(lo), Some(hi)) => Some((lo, hi))
      case _ => None
    else None
  }

  /** "min～max℃", e.g. "-3～8℃"; the text carries both bounds unambiguously. */
  function FormatTemp(minT: int, maxT: int): (r: string)
    ensures ParseTemp(r) == Some((minT, maxT))
  {
    var lo, hi := IntToDecimal(minT), IntToDecimal(maxT);
    var r := lo + "～" + hi + "℃";
    assert '～' !in lo by {
      forall k | 0 <= k < |lo| ensures lo[k] != '～' {}
    }
    assert r == lo + ['～'] + (hi + "℃");
    FindAfterPrefix(lo, '～', hi + "℃");
    assert r[..|lo|] == lo;
    assert r[|lo| + 1..|r| - 1] == hi;
    DecimalRoundTrip(minT);
    DecimalRoundTrip(maxT);
    r
  }

  lemma TempInjective(a1: int, b1: int, a2: int, b2: int)
    ensures FormatTemp(a1, b1) == FormatTemp(a2, b2) <==> a1 == a2 && b1 == b2
  {
  }

  // ---------------------------------------------------------------------------
  // Wind direction
  // ---------------------------------------------------------------------------

  /** The eight compass labels, clockwise from north. */
  const Directions: seq<string> := ["北风", "东北风", "东风", "东南风", "南风", "西南风", "西风", "西北风"]

  /**
   * Sector index of an integer bearing: floor((deg + 22.5) / 45) mod 8,
   * computed exactly as floor((2 * deg + 45) / 90) mod 8. Dafny's `/` and `%`
   * with a positive divisor round toward negative infinity like Python's
   * `//` and `%`.
   */
  function WindIndex(deg: int): (i: nat)
    ensures i < |Directions|
  {
    ((2 * deg + 45) / 90) % 8
  }

  function WindDir(deg: int): (r: string)
    ensures r in Directions
  {
    Directions[WindIndex(deg)]
  }

  /** The compass read directly off the bearing normalised to 0..359. */
  function CompassByRange(deg: int): string {
    var n := deg % 360;
    if n <= 22 then "北风"
    else if n <= 67 then "东北风"
    else if n <= 112 then "东风"
    else if n <= 157 then "东南风"
    else if n <= 202 then "南风"
    else if n <= 247 then "西南风"
    else if n <= 292 then "西风"
    else if n <= 337 then "西北风"
    else "北风"
  }

  lemma DivShift(a: int, m: int)
    ensures (a + 90 * m) / 90 == a / 90 + m
  {
    var q, r := a / 90, a % 90;
    assert a + 90 * m == 90 * (q + m) + r;
  }

  lemma ModShift(a: int, m: int)
    ensures (a + 8 * m) % 8 == a % 8
  {
    var q, r := a / 8, a % 8;
    assert a + 8 * m == 8 * (q + m) + r;
  }

  /** The index depends only on the bearing modulo 360. */
  lemma WindIndexNormalised(deg: int)
    ensures WindIndex(deg) == ((2 * (deg % 360) + 45) / 90) % 8
  {
    var q, n := deg / 360, deg % 360;
    assert 2 * deg + 45 == (2 * n + 45) + 90 * (8 * q);
    DivShift(2 * n + 45, 8 * q);
    ModShift((2 * n + 45) / 90, q);
  }

  /** Every bearing, negative or beyond 359 included, lands in the sector
      whose table of ranges contains it modulo 360. */
  lemma WindDirMatchesCompass(deg: int)
    ensures WindDir(deg) == CompassByRange(deg)
  {
    WindIndexNormalised(deg);
  }

  /** Sector k (counted clockwise from north, any integer k) is centred on
      45 * k degrees and holds the 45 bearings 45k - 22 .. 45k + 22. */
  lemma SectorBounds(deg: int, k: int)
    ensures WindIndex(deg) == k % 8 <== 45 * k - 22 <= deg <= 45 * k + 22
    ensures 45 * k - 22 <= deg <= 45 * k + 22 <== (2 * deg + 45) / 90 == k
  {
    if 45 * k - 22 <= deg <= 45 * k + 22 {
      var a := 2 * deg + 45 - 90 * k;
      assert 0 <= a < 90;
      DivShift(a, k);
    }
  }

  lemma WindDirPeriodic(deg: int)
    ensures WindDir(deg + 360) == WindDir(deg)
  {
    DivShift(2 * deg + 45, 8);
    ModShift((2 * deg + 45) / 90, 1);
  }

  /** Two bearings get the same label exactly when they fall in the same sector. */
  lemma WindDirSameIff(d1: int, d2: int)
    ensures WindDir(d1) == WindDir(d2) <==> WindIndex(d1) == WindIndex(d2)
  {
  }

  // ---------------------------------------------------------------------------
  // Wind text
  // ---------------------------------------------------------------------------

  const Calm := "微风"
  const SpeedUnit := " km/h"

  datatype Wind = Light | Blowing(direction: string, speed: int)

  /** Reads a wind text back: calm, or a direction label and a speed. */
  function ParseWind(s: string): Option<Wind> {
    if s == Calm then Some(Light)
    else
      var i := Find(s, ' ');
      if i + 1 + |SpeedUnit| <= |s| && s[|s| - |SpeedUnit|..] == SpeedUnit && s[..i] in Directions then
        match ParseDecimal(s[i + 1..|s| - |SpeedUnit|])
        case Some(v) => Some(Blowing(s[..i], v))
        case None => None
      else None
  }

  /** "微风" for a speed of at most 1, otherwise e.g. "东北风 12 km/h": the text
      says "calm" for speeds up to 1, whatever the bearing, and otherwise
      carries the sector label and the speed. */
  function FormatWind(speed: int, degree: int): (r: string)
    ensures ParseWind(r) == Some(if speed <= 1 then Light else Blowing(WindDir(degree), speed))
  {
    if speed <= 1 then Calm
    else
      var dir, digits := WindDir(degree), IntToDecimal(speed);
      var r := dir + " " + digits + SpeedUnit;
      assert ' ' !in dir;
      assert r == dir + [' '] + (digits + SpeedUnit);
      assert r != Calm by { assert |r| > |Calm|; }
      FindAfterPrefix(dir, ' ', digits + SpeedUnit);
      assert r[..|dir|] == dir;
      assert r[|r| - |SpeedUnit|..] == SpeedUnit;
      assert r[|dir| + 1..|r| - |SpeedUnit|] == digits;
      DecimalRoundTrip(speed);
      r
  }

  /** The text is "微风" if and only if the speed is at most 1. */
  lemma CalmIff(speed: int, degree: int)
    ensures FormatWind(speed, degree) == Calm <==> speed <= 1
  {
  }

  // ---------------------------------------------------------------------------
  // Weather description
  // ---------------------------------------------------------------------------

  const WeatherNames: map<string, string> := map[
    "Clear" := "晴",
    "Sunny" := "晴",
    "Partly Cloudy" := "多云",
    "Cloudy" := "阴",
    "Overcast" := "阴",
    "Light rain" := "小雨",
    "Moderate rain" := "中雨",
    "Heavy rain" := "大雨",
    "Snow" := "下雪"
  ]

  const DefaultWeather := "多云"

  const WeatherLabels: set<string> := {"晴", "多云", "阴", "小雨", "中雨", "大雨", "下雪"}

  /** `weather_map.get(desc, "多云")`. */
  function WeatherLabel(desc: string): (r: string)
    ensures r in WeatherLabels
  {
    if desc in WeatherNames then WeatherNames[desc] else DefaultWeather
  }

  /** Which English descriptions give each Chinese label. */
  lemma WeatherLabelPreimage(desc: string)
    ensures WeatherLabel(desc) == "晴" <==> desc in {"Clear", "Sunny"}
    ensures WeatherLabel(desc) == "阴" <==> desc in {"Cloudy", "Overcast"}
    ensures WeatherLabel(desc) == "小雨" <==> desc == "Light rain"
    ensures WeatherLabel(desc) == "中雨" <==> desc == "Moderate rain"
    ensures WeatherLabel(desc) == "大雨" <==> desc == "Heavy rain"
    ensures WeatherLabel(desc) == "下雪" <==> desc == "Snow"
    ensures WeatherLabel(desc) == "多云" <==> desc !in WeatherNames || desc == "Partly Cloudy"
  {
  }

  /** The label mentions rain exactly for the three rain descriptions. */
  lemma RainyDescriptions(desc: string)
    ensures '雨' in WeatherLabel(desc) <==> desc in {"Light rain", "Moderate rain", "Heavy rain"}
  {
    var r := WeatherLabel(desc);
    assert r in WeatherLabels;
    assert '雨' !in "晴" && '雨' !in "多云" && '雨' !in "阴" && '雨' !in "下雪";
    assert '雨' in "小雨" && '雨' in "中雨" && '雨' in "大雨";
  }

  // ---------------------------------------------------------------------------
  // Tips
  // ---------------------------------------------------------------------------

  const UmbrellaTip := "记得带伞 ☔"
  const WarmTip := "注意保暖 🧣"
  const TipSeparator := '；'

  /** Builds the tip list step by step and joins it with "；". The umbrella
      tip comes first; the maximum temperature plays no part. */
  method GetTips(weather: string, minT: int, maxT: int) returns (r: string)
    ensures '雨' !in weather && minT > 1 ==> r == ""
    ensures '雨' in weather && minT > 1 ==> r == UmbrellaTip
    ensures '雨' !in weather && minT <= 1 ==> r == WarmTip
    ensures '雨' in weather && minT <= 1 ==> r == UmbrellaTip + [TipSeparator] + WarmTip
    ensures '伞' in r <==> '雨' in weather
    ensures '暖' in r <==> minT <= 1
    ensures r != "" ==> Split(r, TipSeparator) == (if '雨' in weather then [UmbrellaTip] else [])
                                                 + (if minT <= 1 then [WarmTip] else [])
  {
    var tips: seq<string> := [];
    if '雨' in weather {
      tips := tips + [UmbrellaTip];
    }
    if minT <= 1 {
      tips := tips + [WarmTip];
    }
    r := Join([TipSeparator], tips);
    assert '伞' in UmbrellaTip && '伞' !in WarmTip && '伞' != TipSeparator;
    assert '暖' in WarmTip && '暖' !in UmbrellaTip && '暖' != TipSeparator;
    if |tips| == 2 {
      assert r == UmbrellaTip + [TipSeparator] + WarmTip;
    }
    if r != "" {
      SplitJoin(tips, TipSeparator);
    }
  }

  // ---------------------------------------------------------------------------
  // Sentence of the day
  // ---------------------------------------------------------------------------

  /** Built-in sentences used when no fetched sentence is acceptable. */
  const LoveFallback: seq<string> := [
    "今天也有人偷偷想你",
    "风很冷，但我很暖",
    "你一笑，世界就亮了",
    "慢慢走，我陪你",
    "愿你被温柔以待"
  ]

  const LoveAttempts := 5

  predicate FitsNote(s: string) {
    4 <= |s| <= 18
  }

  /** An attempt succeeds when the request returned a sentence that, once
      stripped, is 4 to 18 characters long. */
  predicate Accepted(attempt: Option<string>) {
    attempt.Some? && FitsNote(Strip(attempt.value))
  }

  /** Every built-in sentence satisfies the length rule. */
  lemma FallbackFits()
    ensures forall k :: 0 <= k < |LoveFallback| ==> FitsNote(LoveFallback[k])
  {
  }

  /** Index of the first accepted attempt, or `|attempts|` when none is. */
  function FirstAccepted(attempts: seq<Option<string>>): (k: nat)
    ensures k <= |attempts|
    ensures k < |attempts| ==> Accepted(attempts[k])
    ensures forall j :: 0 <= j < k ==> !Accepted(attempts[j])
  {
    if |attempts| == 0 then 0
    else if Accepted(attempts[0]) then 0
    else 1 + FirstAccepted(attempts[1..])
  }

  /**
   * `attempts[i]` is what the i-th of the five requests yields: a raw
   * sentence, or None when the request or its decoding failed. The first
   * acceptable stripped sentence is returned; if none of the five is
   * acceptable, any one of the built-in sentences is.
   */
  method DailyLove(attempts: seq<Option<string>>) returns (sentence: string)
    requires |attempts| == LoveAttempts
    ensures FitsNote(sentence)
    ensures FirstAccepted(attempts) < |attempts| ==>
              sentence == Strip(attempts[FirstAccepted(attempts)].value)
    ensures FirstAccepted(attempts) == |attempts| ==> sentence in LoveFallback
  {
    var i := 0;
    while i < LoveAttempts
      invariant 0 <= i <= LoveAttempts
      invariant i <= FirstAccepted(attempts)
    {
      if attempts[i].Some? {
        var s := Strip(attempts[i].value);
        if 4 <= |s| <= 18 {
          assert Accepted(attempts[i]);
          return s;
        }
      }
      i := i + 1;
    }
    var k :| 0 <= k < |LoveFallback|;
    FallbackFits();
    sentence := LoveFallback[k];
  }

  // ---------------------------------------------------------------------------
  // The report
  // ---------------------------------------------------------------------------

  const Region := "太原市小店区"

  /** A wind field of the forecast: absent, present but empty, or a number. */
  datatype Field = Absent | Blank | Number(value: int)

  /** The values the report takes from today's forecast. */
  datatype Forecast = Forecast(
    minTempC: int,
    maxTempC: int,
    description: string,
    windSpeed: Field,
    windDegree: Field)

  datatype WeatherInfo = WeatherInfo(
    region: string,
    weather: string,
    temp: string,
    wind: string,
    minT: int,
    maxT: int)

  /** An absent speed reads as 0; an empty one cannot be converted. */
  function SpeedOf(f: Forecast): Option<int> {
    match f.windSpeed
    case Absent => Some(0)
    case Blank => None
    case Number(v) => Some(v)
  }

  /** An absent or empty bearing reads as 0 (north). */
  function DegreeOf(f: Forecast): int {
    if f.windDegree.Number? then f.windDegree.value else 0
  }

  /** The weather part of the report, worded from today's forecast; None
      stands for the conversion error an empty wind speed raises. */
  function GetWeather(f: Forecast): (r: Option<WeatherInfo>)
    ensures r.None? <==> f.windSpeed.Blank?
    ensures r.Some? ==> r.value.region == Region && r.value.minT == f.minTempC && r.value.maxT == f.maxTempC
    ensures r.Some? ==> r.value.weather == WeatherLabel(f.description)
    ensures r.Some? ==> r.value.temp == FormatTemp(f.minTempC, f.maxTempC)
    ensures r.Some? ==> r.value.wind == FormatWind(SpeedOf(f).value, DegreeOf(f))
    ensures r.Some? ==> r.value.weather in WeatherLabels
    ensures r.Some? ==> ParseTemp(r.value.temp) == Some((f.minTempC, f.maxTempC))
    ensures r.Some? ==> var speed := SpeedOf(f).value;
              ParseWind(r.value.wind) ==
              Some(if speed <= 1 then Light else Blowing(CompassByRange(DegreeOf(f)), speed))
    ensures f.windSpeed.Absent? ==> r.Some? && r.value.wind == Calm
  {
    match SpeedOf(f)
    case None => None
    case Some(speed) =>
      WindDirMatchesCompass(DegreeOf(f));
      Some(WeatherInfo(Region, WeatherLabel(f.description), FormatTemp(f.minTempC, f.maxTempC),
                       FormatWind(speed, DegreeOf(f)), f.minTempC, f.maxTempC))
  }
}
