/** The weather page, `src/pages/tools/WeatherPage.tsx`: the icon chosen for
    a condition text, the location search, and the hourly strip that shows
    every third hour with its label. */
module Weather {
  import opened Strings

  datatype Icon = CloudRain | Cloud | CloudFog | CloudSnow | CloudLightning | CloudSun | Sun

  /** `WeatherIcon`'s `getIcon`, branch for branch, the sun-and-cloud test
      included. */
  function GetIcon(condition: string): (r: Icon)
    ensures r == Classify(Lower(condition))
  {
    var c := Lower(condition);
    if Contains(c, "rain") || Contains(c, "drizzle") then CloudRain
    else if Contains(c, "cloud") then Cloud
    else if Contains(c, "fog") || Contains(c, "mist") then CloudFog
    else if Contains(c, "snow") || Contains(c, "sleet") then CloudSnow
    else if Contains(c, "thunder") || Contains(c, "lightning") then CloudLightning
    else if Contains(c, "sun") && Contains(c, "cloud") then CloudSun
    else if Contains(c, "clear") || Contains(c, "sun") then Sun
    else CloudSun
  }

  /** The text holds one of two keywords. */
  predicate Mentions(c: string, a: string, b: string) {
    Contains(c, a) || Contains(c, b)
  }

  /** The classification by keyword priority alone: rain or drizzle, then
      cloud, fog or mist, snow or sleet, thunder or lightning, clear or
      sun, and partly cloudy for anything else. */
  function Classify(c: string): (r: Icon)
    ensures r == CloudRain <==> Mentions(c, "rain", "drizzle")
    ensures r == Cloud <==> !Mentions(c, "rain", "drizzle") && Contains(c, "cloud")
    ensures r == CloudFog <==>
      !Mentions(c, "rain", "drizzle") && !Contains(c, "cloud") && Mentions(c, "fog", "mist")
    ensures r == CloudSnow <==>
      !Mentions(c, "rain", "drizzle") && !Contains(c, "cloud") && !Mentions(c, "fog", "mist")
      && Mentions(c, "snow", "sleet")
    ensures r == CloudLightning <==>
      !Mentions(c, "rain", "drizzle") && !Contains(c, "cloud") && !Mentions(c, "fog", "mist")
      && !Mentions(c, "snow", "sleet") && Mentions(c, "thunder", "lightning")
    ensures r == Sun <==>
      !Mentions(c, "rain", "drizzle") && !Contains(c, "cloud") && !Mentions(c, "fog", "mist")
      && !Mentions(c, "snow", "sleet") && !Mentions(c, "thunder", "lightning") && Mentions(c, "clear", "sun")
    ensures r == CloudSun <==>
      !Mentions(c, "rain", "drizzle") && !Contains(c, "cloud") && !Mentions(c, "fog", "mist")
      && !Mentions(c, "snow", "sleet") && !Mentions(c, "thunder", "lightning") && !Mentions(c, "clear", "sun")
  {
    if Contains(c, "rain") || Contains(c, "drizzle") then CloudRain
    else if Contains(c, "cloud") then Cloud
    else if Contains(c, "fog") || Contains(c, "mist") then CloudFog
    else if Contains(c, "snow") || Contains(c, "sleet") then CloudSnow
    else if Contains(c, "thunder") || Contains(c, "lightning") then CloudLightning
    else if Contains(c, "clear") || Contains(c, "sun") then Sun
    else CloudSun
  }

  /** The sun-and-cloud branch never decides: a condition with "cloud" has
      already been given the cloud icon, so `getIcon` is the keyword
      priority on the lowercased text. */
  lemma SunAndCloudUnreachable(condition: string)
    ensures GetIcon(condition) == Classify(Lower(condition))
    ensures var c := Lower(condition);
      GetIcon(condition) == CloudSun ==> !Contains(c, "clear") && !Contains(c, "sun")
  {
  }

  /** Case does not matter. */
  lemma GetIconIgnoresCase(condition: string)
    ensures GetIcon(Lower(condition)) == GetIcon(condition)
  {
    LowerIdempotent(condition);
  }

  /** The text typed into the search box becomes the location only when it
      is not blank, and then untrimmed. */
  function Submitted(current: string, typed: string): (r: string)
    ensures IsBlank(typed) ==> r == current
    ensures !IsBlank(typed) ==> r == typed
  {
    TrimEmptyIffBlank(typed);
    if Trim(typed) != "" then typed else current
  }

  /** `hours.filter((_, i) => i % 3 === 0)`. */
  function EveryThirdHour<T>(hours: seq<T>): (r: seq<T>)
    ensures |r| == (|hours| + 2) / 3
    decreases |hours|
  {
    if hours == [] then []
    else [hours[0]] + EveryThirdHour(if |hours| >= 3 then hours[3..] else [])
  }

  /** The kept entries are those at indices 0, 3, 6, ..., in order. */
  lemma {:induction false} EveryThirdHourIndices<T>(hours: seq<T>)
    ensures |EveryThirdHour(hours)| == (|hours| + 2) / 3
    ensures forall k :: 0 <= k < |EveryThirdHour(hours)| ==> EveryThirdHour(hours)[k] == hours[3 * k]
    decreases |hours|
  {
    if hours != [] {
      var rest := if |hours| >= 3 then hours[3..] else [];
      EveryThirdHourIndices(rest);
      var r := EveryThirdHour(hours);
      forall k | 0 < k < |r| ensures r[k] == hours[3 * k] {
        assert r[k] == EveryThirdHour(rest)[k - 1];
        assert rest[3 * (k - 1)] == hours[3 * k];
      }
    }
  }

  /** A day of 24 hours shows 8 of them. */
  lemma DayShowsEight<T>(hours: seq<T>)
    requires |hours| == 24
    ensures |EveryThirdHour(hours)| == 8
  {
    EveryThirdHourIndices(hours);
  }

  /** `hourTime === 0 ? '00:00' : \`${hourTime}:00\``, for a clock hour. */
  function HourLabel(hour: nat): (r: string)
    requires hour < 24
    ensures hour == 0 <==> r == "00:00"
    ensures hour > 0 ==> r == NatToString(hour) + ":00" && r[0] != '0'
    ensures |r| == if 0 < hour < 10 then 4 else 5
  {
    NatToStringLength(hour);
    if hour == 0 then "00:00"
    else
      var r := NatToString(hour) + ":00";
      assert r[0] == NatToString(hour)[0];
      r
  }
}
