/** The NWS hourly-forecast client (src/lib/noaaWeather.js): the wind-speed text parser
    and the mapping of forecast periods. The two HTTP requests are inputs. */
module NoaaWeather {
  import opened Wrappers
  import opened Js
  import Text

  /** mph to knots. */
  const MphToKnots: real := 0.868976

  /** One mapped forecast period; a field that the period lacks is `undefined` (None). */
  datatype HourlyPeriod = HourlyPeriod(
    startTime: Option<Json>,
    temperatureF: Option<Json>,
    windSpeedKts: Option<Num>,   // None is null (parseWindSpeed found no number)
    windDirection: Option<Json>,
    shortForecast: Option<Json>)

  /** The unit after a number in the wind text. */
  datatype SpeedUnit = NoUnit | Mph | Kt

  predicate IsSpeedChar(c: char) { Text.IsDigit(c) || c == '.' }

  /** Comparison under the `i` flag of a regular expression without the `u` flag: the
      characters at each position fold to the same character (see Text.RegexFold). */
  predicate EqualsIgnoringCase(a: string, b: string) {
    |a| == |b| && forall i :: 0 <= i < |a| ==> Text.RegexFold(a[i]) == Text.RegexFold(b[i])
  }

  /** The leftmost index where `[0-9.]` matches, if any. */
  function SpeedStart(s: string): (r: Option<nat>)
    ensures r.Some? ==> r.value < |s| && IsSpeedChar(s[r.value])
    ensures r.Some? ==> forall j :: 0 <= j < r.value ==> !IsSpeedChar(s[j])
    ensures r.None? ==> forall j :: 0 <= j < |s| ==> !IsSpeedChar(s[j])
  {
    if s == [] then None
    else if IsSpeedChar(s[0]) then Some(0)
    else match SpeedStart(s[1..]) case None => None case Some(k) => Some(k + 1)
  }

  /** The length of the maximal `[0-9.]+` run starting at p. */
  function SpeedRunLength(s: string, p: nat): (n: nat)
    requires p <= |s|
    ensures p + n <= |s|
    ensures forall j :: p <= j < p + n ==> IsSpeedChar(s[j])
    ensures p + n < |s| ==> !IsSpeedChar(s[p + n])
    decreases |s| - p
  {
    if p < |s| && IsSpeedChar(s[p]) then 1 + SpeedRunLength(s, p + 1) else 0
  }

  /** The number of whitespace characters starting at p (`\s*`). */
  function SpaceRunLength(s: string, p: nat): (n: nat)
    requires p <= |s|
    ensures p + n <= |s|
    ensures forall j :: p <= j < p + n ==> Text.IsSpace(s[j])
    ensures p + n < |s| ==> !Text.IsSpace(s[p + n])
    decreases |s| - p
  {
    if p < |s| && Text.IsSpace(s[p]) then 1 + SpaceRunLength(s, p + 1) else 0
  }

  /** `(mph|kt|kts)?` at q, case-insensitively: the alternatives are tried in order. */
  function UnitAt(s: string, q: nat): SpeedUnit
    requires q <= |s|
  {
    if q + 3 <= |s| && EqualsIgnoringCase(s[q..q + 3], "mph") then Mph
    else if q + 2 <= |s| && EqualsIgnoringCase(s[q..q + 2], "kt") then Kt
    else NoUnit
  }

  /** `parseWindSpeed`: the first `[0-9.]+` run of a string as a number, converted from mph
      to knots when "mph" follows it (after optional whitespace); null for anything that
      is not a string and for a string without such a run. */
  function ParseWindSpeed(value: Option<Json>): (r: Option<Num>)
    ensures !(value.Some? && value.value.JStr?) ==> r.None?
    ensures value.Some? && value.value.JStr? ==>
      (r.None? <==> forall j :: 0 <= j < |value.value.s| ==> !IsSpeedChar(value.value.s[j]))
  {
    if value.Some? && value.value.JStr? then
      var s := value.value.s;
      match SpeedStart(s)
      case None => None
      case Some(p) =>
        var speed := SpeedValue(s, p);
        Some(if SpeedUnitAfter(s, p) == Mph then Scale(speed, MphToKnots) else speed)
    else None
  }

  /** `Number(...)` of the `[0-9.]+` run starting at p. */
  function SpeedValue(s: string, p: nat): Num
    requires p <= |s|
  {
    NumberOf(s[p..p + SpeedRunLength(s, p)])
  }

  /** The unit that follows the run starting at p, after optional whitespace. */
  function SpeedUnitAfter(s: string, p: nat): SpeedUnit
    requires p <= |s|
  {
    var n := SpeedRunLength(s, p);
    UnitAt(s, p + n + SpaceRunLength(s, p + n))
  }

  /** A number multiplied by a constant; NaN stays NaN. */
  function Scale(n: Num, k: real): Num {
    match n
    case NaN => NaN
    case N(v) => N(v * k)
  }

  /** Only the first run counts and the unit must follow it: "10 to 15 mph" is 10 knots,
      with no conversion. */
  lemma ParseWindSpeedRange()
    ensures ParseWindSpeed(Some(JStr("10 to 15 mph"))) == Some(N(10.0))
  {
    var s := "10 to 15 mph";
    assert SpeedStart(s) == Some(0);
    SpeedValueTwoDigits(s, 10);
    RangeUnit();
    ParseWindSpeedUnits(s, 0);
  }

  lemma RangeUnit()
    ensures SpeedUnitAfter("10 to 15 mph", 0) == NoUnit
  {
    var s := "10 to 15 mph";
    assert SpeedRunLength(s, 2) == 0;
    assert SpeedRunLength(s, 0) == 2;
    assert SpaceRunLength(s, 3) == 0;
    assert SpaceRunLength(s, 2) == 1;
    assert s[3] == 't' && Text.RegexFold('t') == 'T';
    NoUnitAt(s, 3);
  }

  /** No unit starts at a letter other than m or k. */
  lemma NoUnitAt(s: string, q: nat)
    requires q < |s| && Text.RegexFold(s[q]) != 'M' && Text.RegexFold(s[q]) != 'K'
    ensures UnitAt(s, q) == NoUnit
  {
    assert Text.RegexFold('m') == 'M' && Text.RegexFold('k') == 'K';
    if q + 3 <= |s| {
      assert s[q..q + 3][0] == s[q] && "mph"[0] == 'm';
    }
    if q + 2 <= |s| {
      assert s[q..q + 2][0] == s[q] && "kt"[0] == 'k';
    }
  }

  /** The unit is matched case-insensitively: "12 MPH" is converted to knots. */
  lemma ParseWindSpeedUpperCaseUnit()
    ensures ParseWindSpeed(Some(JStr("12 MPH"))) == Some(N(12.0 * MphToKnots))
  {
    var u := "12 MPH";
    assert SpeedStart(u) == Some(0);
    SpeedValueTwoDigits(u, 12);
    UpperCaseUnit();
    ParseWindSpeedUnits(u, 0);
  }

  lemma UpperCaseUnit()
    ensures SpeedUnitAfter("12 MPH", 0) == Mph
  {
    var u := "12 MPH";
    assert SpeedRunLength(u, 2) == 0;
    assert SpeedRunLength(u, 0) == 2;
    assert SpaceRunLength(u, 3) == 0;
    assert SpaceRunLength(u, 2) == 1;
    assert u[3..6] == "MPH";
    assert Text.RegexFold('m') == 'M' && Text.RegexFold('p') == 'P' && Text.RegexFold('h') == 'H';
    assert EqualsIgnoringCase("MPH", "mph");
  }

  /** A text that starts with two digits and a space reads as that two-digit number. */
  lemma SpeedValueTwoDigits(s: string, v: nat)
    requires |s| >= 3 && Text.IsDigit(s[0]) && Text.IsDigit(s[1]) && s[2] == ' '
    requires v == Text.DigitValue(s[0]) * 10 + Text.DigitValue(s[1])
    ensures SpeedValue(s, 0) == N(v as real)
  {
    assert SpeedRunLength(s, 2) == 0;
    assert SpeedRunLength(s, 0) == 2;
    var ds := s[0..2];
    assert Text.AllDigits(ds);
    assert ds[..1] == [s[0]] && ds[..1][..0] == [];
    assert Text.DigitsValue(ds[..1]) == Text.DigitValue(s[0]);
    assert Text.DigitsValue(ds) == v;
    Js.NumberOfDigits(ds);
  }

  /** The unit rule: "mph" right after the number converts to knots, "kt", "kts" or no unit
      leave it unchanged. */
  lemma ParseWindSpeedUnits(s: string, p: nat)
    requires SpeedStart(s) == Some(p)
    ensures SpeedUnitAfter(s, p) == Mph ==>
      ParseWindSpeed(Some(JStr(s))) == Some(Scale(SpeedValue(s, p), MphToKnots))
    ensures SpeedUnitAfter(s, p) != Mph ==> ParseWindSpeed(Some(JStr(s))) == Some(SpeedValue(s, p))
  {}

  /** `getHourlyForecast`: reads `properties.forecastHourly` of the points response; an
      absent URL gives []; otherwise the hourly response's `properties.periods`, when it is
      an array, mapped one period to one entry. A failed request rejects, and so does a
      null response or a null period (the property read throws). */
  function HourlyForecast(point: Upstream<Json>, hourly: Upstream<Json>): (r: Outcome<seq<HourlyPeriod>>)
    ensures point.Failed? ==> r == Rejected(point.message)
    ensures point.Ok? && !Present(GetOpt(Get(point.value, "properties"), "forecastHourly")) ==>
      r == Resolved([])
    ensures point.Ok? && Present(GetOpt(Get(point.value, "properties"), "forecastHourly")) ==>
      (hourly.Failed? ==> r == Rejected(hourly.message))
      && (hourly.Ok? && hourly.value == JNull ==> r == Rejected(TypeErrorMessage))
      && (hourly.Ok? && hourly.value != JNull ==>
            var periods := GetOpt(Get(hourly.value, "properties"), "periods");
            (!(periods.Some? && periods.value.JArr?) ==> r == Resolved([]))
            && (periods.Some? && periods.value.JArr? ==>
                  (r.Resolved? <==> forall i :: 0 <= i < |periods.value.items| ==> periods.value.items[i] != JNull)
                  && (r.Resolved? ==>
                        && |r.value| == |periods.value.items|
                        && forall i :: 0 <= i < |r.value| ==> PeriodOf(periods.value.items[i], r.value[i]))))
  {
    match point
    case Failed(m) => Rejected(m)
    case Ok(p) =>
      var url := GetOpt(Get(p, "properties"), "forecastHourly");
      if !Present(url) then Resolved([])
      else
        match hourly
        case Failed(m) => Rejected(m)
        case Ok(forecast) =>
          if forecast == JNull then Rejected(TypeErrorMessage)
          else
            var periods := GetOpt(Get(forecast, "properties"), "periods");
            if periods.Some? && periods.value.JArr? then MapPeriods(periods.value.items)
            else Resolved([])
  }

  /** `e` is the entry built from the forecast period `p`: its fields copied, the wind
      speed parsed. */
  predicate PeriodOf(p: Json, e: HourlyPeriod) {
    && e.startTime == Get(p, "startTime")
    && e.temperatureF == Get(p, "temperature")
    && e.windSpeedKts == ParseWindSpeed(Get(p, "windSpeed"))
    && e.windDirection == Get(p, "windDirection")
    && e.shortForecast == Get(p, "shortForecast")
  }

  /** `periods.map(...)`: throws at the first null period. */
  function MapPeriods(items: seq<Json>): (r: Outcome<seq<HourlyPeriod>>)
    ensures r.Resolved? <==> forall i :: 0 <= i < |items| ==> items[i] != JNull
    ensures r.Rejected? ==> r.message == TypeErrorMessage
    ensures r.Resolved? ==> |r.value| == |items| && forall i :: 0 <= i < |items| ==> PeriodOf(items[i], r.value[i])
  {
    if items == [] then Resolved([])
    else if items[0] == JNull then Rejected(TypeErrorMessage)
    else
      var p := items[0];
      var e := HourlyPeriod(Get(p, "startTime"), Get(p, "temperature"),
                            ParseWindSpeed(Get(p, "windSpeed")), Get(p, "windDirection"),
                            Get(p, "shortForecast"));
      match MapPeriods(items[1..])
      case Rejected(m) => Rejected(m)
      case Resolved(rest) => Resolved([e] + rest)
  }
}
