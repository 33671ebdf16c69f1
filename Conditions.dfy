/** The bay-wide conditions service of src/lib/conditions.js: its wind-speed parser, the
    compass tables, its own rating policy, and the five-minute cache with stale fallback in
    front of the NWS forecast. The two NWS requests are inputs. */
module Conditions {
  import opened Wrappers
  import opened Js
  import Text
  import Normalize

  type Rating = Normalize.Rating

  /** mph to knots. */
  const MphToKnots: real := 0.868976

  /** The time a good reading is reused, in milliseconds (5 minutes). */
  const CacheMs: int := 5 * 60 * 1000

  const Location: string := "Central Mobile Bay"

  // ---------------------------------------------------------------- wind speed

  /** `Math.round(x * 10) / 10`: x to the nearest tenth. */
  function RoundTenth(x: real): (r: real)
    ensures x - 0.05 < r <= x + 0.05
  {
    Round(x * 10.0) as real / 10.0
  }

  /** The number matched by `[0-9]+(?:\.[0-9]+)?` at the start of s (s starts with a digit),
      as (value, length): the fraction is taken when a '.' and at least one digit follow. */
  function DecimalRun(s: string): (r: (real, nat))
    requires s != [] && Text.IsDigit(s[0])
    ensures 0 < r.1 <= |s|
    ensures r.0 >= 0.0
  {
    var a := Text.LeadingDigits(s);
    var whole := Text.DigitsValue(s[..a]) as real;
    if a + 1 < |s| && s[a] == '.' && Text.IsDigit(s[a + 1]) then
      var b := Text.LeadingDigits(s[a + 1..]);
      (whole + Text.DigitsValue(s[a + 1..][..b]) as real / Text.Pow10(b) as real, a + 1 + b)
    else (whole, a)
  }

  /** The numbers of `s.match(/([0-9]+(?:\.[0-9]+)?)/g)`, left to right, each read by
      `parseFloat`. */
  function NumberRuns(s: string): (r: seq<real>)
    ensures r == [] <==> forall i :: 0 <= i < |s| ==> !Text.IsDigit(s[i])
    ensures forall i :: 0 <= i < |r| ==> r[i] >= 0.0
    decreases |s|
  {
    if s == [] then []
    else if Text.IsDigit(s[0]) then
      var (v, n) := DecimalRun(s);
      [v] + NumberRuns(s[n..])
    else
      var rest := NumberRuns(s[1..]);
      assert forall i :: 1 <= i < |s| ==> s[i] == s[1..][i - 1];
      rest
  }

  function Sum(xs: seq<real>): real {
    if xs == [] then 0.0 else xs[0] + Sum(xs[1..])
  }

  /** The mean of a non-empty list. */
  function Average(xs: seq<real>): real
    requires xs != []
  {
    Sum(xs) / |xs| as real
  }

  /** `parseWindSpeedKts`: null for null and undefined; a number in mph converted to knots
      and rounded to a tenth; a string read as the mean of all the numbers in it, converted
      and rounded the same way (null when it has none); null for anything else. */
  function ParseWindSpeedKts(raw: Option<Json>): (r: Option<real>)
    ensures r.Some? <==> raw.Some? && (raw.value.JNum? || (raw.value.JStr? && NumberRuns(raw.value.s) != []))
    ensures r.Some? && raw.value.JNum? ==>
      raw.value.n * MphToKnots - 0.05 < r.value <= raw.value.n * MphToKnots + 0.05
    ensures r.Some? && raw.value.JStr? ==>
      var k := Average(NumberRuns(raw.value.s)) * MphToKnots;
      k - 0.05 < r.value <= k + 0.05
  {
    if raw.None? then None
    else
      match raw.value
      case JNull => None
      case JNum(x) => Some(RoundTenth(x * MphToKnots))
      case JStr(s) =>
        var nums := NumberRuns(s);
        if nums == [] then None else Some(RoundTenth(Average(nums) * MphToKnots))
      case _ => None
  }

  /** The value of two decimal digits. */
  function TwoDigits(a: char, b: char): nat
    requires Text.IsDigit(a) && Text.IsDigit(b)
  {
    Text.DigitValue(a) * 10 + Text.DigitValue(b)
  }

  /** A wind text with a range, such as "10 to 20 mph", is read as the middle of the range:
      the mean of its two numbers, converted to knots and rounded to a tenth. */
  lemma ParseWindSpeedKtsRange(a: char, b: char, c: char, d: char, mid: string, unit: string)
    requires Text.IsDigit(a) && Text.IsDigit(b) && Text.IsDigit(c) && Text.IsDigit(d)
    requires mid != [] && mid[0] != '.' && forall i :: 0 <= i < |mid| ==> !Text.IsDigit(mid[i])
    requires unit != [] && unit[0] != '.' && forall i :: 0 <= i < |unit| ==> !Text.IsDigit(unit[i])
    ensures var r := ParseWindSpeedKts(Some(JStr([a, b] + mid + ([c, d] + unit))));
      var k := (TwoDigits(a, b) + TwoDigits(c, d)) as real / 2.0 * MphToKnots;
      r.Some? && k - 0.05 < r.value <= k + 0.05
  {
    RangeRuns(a, b, c, d, mid, unit);
    AverageOfTwo(TwoDigits(a, b) as real, TwoDigits(c, d) as real);
  }

  lemma AverageOfTwo(x: real, y: real)
    ensures Average([x, y]) == (x + y) / 2.0
  {
    var xs := [x, y];
    assert xs[1..] == [y] && [y][1..] == [];
    assert Sum([y]) == y + Sum([]);
    assert Sum(xs) == x + Sum([y]);
  }

  /** The numbers of "<two digits><text><two digits><text>". */
  lemma RangeRuns(a: char, b: char, c: char, d: char, mid: string, unit: string)
    requires Text.IsDigit(a) && Text.IsDigit(b) && Text.IsDigit(c) && Text.IsDigit(d)
    requires mid != [] && mid[0] != '.' && forall i :: 0 <= i < |mid| ==> !Text.IsDigit(mid[i])
    requires unit != [] && unit[0] != '.' && forall i :: 0 <= i < |unit| ==> !Text.IsDigit(unit[i])
    ensures NumberRuns([a, b] + mid + ([c, d] + unit)) == [TwoDigits(a, b) as real, TwoDigits(c, d) as real]
  {
    RangeFront(a, b, mid, [c, d] + unit);
    TwoDigitsThen(c, d, unit);
    assert NumberRuns(unit) == [];
  }

  /** The first number of a range and the text after it. */
  lemma RangeFront(a: char, b: char, mid: string, back: string)
    requires Text.IsDigit(a) && Text.IsDigit(b)
    requires mid != [] && mid[0] != '.' && forall i :: 0 <= i < |mid| ==> !Text.IsDigit(mid[i])
    ensures NumberRuns([a, b] + mid + back) == [TwoDigits(a, b) as real] + NumberRuns(back)
  {
    assert [a, b] + mid + back == [a, b] + (mid + back);
    TwoDigitsThen(a, b, mid + back);
    SkipText(mid, back);
  }

  /** Two digits followed by neither a digit nor a point are one number. */
  lemma TwoDigitsThen(a: char, b: char, t: string)
    requires Text.IsDigit(a) && Text.IsDigit(b) && t != [] && !Text.IsDigit(t[0]) && t[0] != '.'
    ensures NumberRuns([a, b] + t) == [TwoDigits(a, b) as real] + NumberRuns(t)
  {
    var s := [a, b] + t;
    TwoDigitRun(s, TwoDigits(a, b));
    assert s[2..] == t;
  }

  /** Text without digits in front of t contributes no number. */
  lemma SkipText(p: string, t: string)
    requires forall i :: 0 <= i < |p| ==> !Text.IsDigit(p[i])
    ensures NumberRuns(p + t) == NumberRuns(t)
  {
    SkipNonDigits(p + t, |p|);
    assert (p + t)[|p|..] == t;
  }

  /** Characters that are not digits are passed over. */
  lemma {:induction false} SkipNonDigits(s: string, k: nat)
    requires k <= |s| && forall i :: 0 <= i < k ==> !Text.IsDigit(s[i])
    ensures NumberRuns(s) == NumberRuns(s[k..])
  {
    if k > 0 {
      SkipNonDigits(s[1..], k - 1);
      assert s[1..][k - 1..] == s[k..];
    }
  }

  /** A number with a fraction, such as "12.5", reads as the value of the digits on both
      sides of the point, and spans them. */
  lemma DecimalRunOfFraction(ds: string, fs: string, rest: string)
    requires |ds| > 0 && |fs| > 0 && Text.AllDigits(ds) && Text.AllDigits(fs)
    requires rest == [] || !Text.IsDigit(rest[0])
    ensures DecimalRun(ds + "." + fs + rest) == (Text.DecimalValue(ds, fs), |ds| + 1 + |fs|)
  {
    var s := ds + "." + fs + rest;
    Text.PointText(ds, fs, rest);
    Text.LeadingDigitsOfRun(ds, "." + fs + rest);
    Text.LeadingDigitsOfRun(fs, rest);
    DecimalRunWithPoint(s, ds, fs);
  }

  lemma DecimalRunWithPoint(s: string, ds: string, fs: string)
    requires Text.AllDigits(ds) && Text.AllDigits(fs) && |ds| > 0 && |fs| > 0
    requires |ds| + 1 < |s| && Text.LeadingDigits(s) == |ds| && s[..|ds|] == ds
    requires s[|ds|] == '.' && s[|ds| + 1] == fs[0]
    requires Text.LeadingDigits(s[|ds| + 1..]) == |fs| && s[|ds| + 1..][..|fs|] == fs
    ensures DecimalRun(s) == (Text.DecimalValue(ds, fs), |ds| + 1 + |fs|)
  {
  }

  /** A number without a fraction reads as the value of its digits: the digits are followed
      by neither another digit nor a '.' and a digit ("72." and "72.x" read as 72). */
  lemma DecimalRunOfWhole(ds: string, rest: string)
    requires |ds| > 0 && Text.AllDigits(ds)
    requires rest == [] || (!Text.IsDigit(rest[0]) && !(rest[0] == '.' && |rest| > 1 && Text.IsDigit(rest[1])))
    ensures DecimalRun(ds + rest) == (Text.DigitsValue(ds) as real, |ds|)
  {
    var s := ds + rest;
    WholeText(ds, rest);
    Text.LeadingDigitsOfRun(ds, rest);
  }

  /** Where the parts of ds followed by rest lie. */
  lemma WholeText(ds: string, rest: string)
    ensures var s := ds + rest;
      && s[..|ds|] == ds && s[|ds|..] == rest
      && (|rest| > 0 ==> s[|ds|] == rest[0]) && (|rest| > 1 ==> s[|ds| + 1] == rest[1])
  {
  }

  /** A number with a fraction is one number, and the text after it is read on. */
  lemma NumberRunsOfFraction(ds: string, fs: string, rest: string)
    requires |ds| > 0 && |fs| > 0 && Text.AllDigits(ds) && Text.AllDigits(fs)
    requires rest == [] || !Text.IsDigit(rest[0])
    ensures NumberRuns(ds + "." + fs + rest) == [Text.DecimalValue(ds, fs)] + NumberRuns(rest)
  {
    DecimalRunOfFraction(ds, fs, rest);
    Text.PointText(ds, fs, rest);
  }

  /** A number without a fraction is one number, and the text after it is read on. */
  lemma NumberRunsOfWhole(ds: string, rest: string)
    requires |ds| > 0 && Text.AllDigits(ds)
    requires rest == [] || (!Text.IsDigit(rest[0]) && !(rest[0] == '.' && |rest| > 1 && Text.IsDigit(rest[1])))
    ensures NumberRuns(ds + rest) == [Text.DigitsValue(ds) as real] + NumberRuns(rest)
  {
    DecimalRunOfWhole(ds, rest);
    WholeText(ds, rest);
  }

  lemma TwoDigitRun(s: string, v: nat)
    requires |s| >= 3 && Text.IsDigit(s[0]) && Text.IsDigit(s[1]) && !Text.IsDigit(s[2]) && s[2] != '.'
    requires v == Text.DigitValue(s[0]) * 10 + Text.DigitValue(s[1])
    ensures DecimalRun(s) == (v as real, 2)
  {
    assert Text.LeadingDigits(s[2..]) == 0;
    assert Text.LeadingDigits(s[1..]) == 1;
    assert Text.LeadingDigits(s) == 2;
    var ds := s[..2];
    assert ds[..1] == [s[0]] && ds[..1][..0] == [];
    assert Text.DigitsValue(ds[..1]) == Text.DigitValue(s[0]);
  }

  // ---------------------------------------------------------------- compass

  /** The sixteen compass points, clockwise from north, 22.5 degrees apart. */
  const Points: seq<string> :=
    ["N", "NNE", "NE", "ENE", "E", "ESE", "SE", "SSE",
     "S", "SSW", "SW", "WSW", "W", "WNW", "NW", "NNW"]

  /** The position of `name` among the compass points, if it is one (what it finds is
      stated by PointIndexSpec). */
  function PointIndex(name: string): Option<nat> {
    PointIndexFrom(name, 0)
  }

  function PointIndexFrom(name: string, i: nat): Option<nat>
    requires i <= 16
    decreases 16 - i
  {
    if i == 16 then None
    else if Points[i] == name then Some(i)
    else PointIndexFrom(name, i + 1)
  }

  lemma {:induction false} PointIndexFromSpec(name: string, i: nat)
    requires i <= 16
    ensures PointIndexFrom(name, i).Some? ==>
      i <= PointIndexFrom(name, i).value < 16 && Points[PointIndexFrom(name, i).value] == name
    ensures PointIndexFrom(name, i).None? ==> forall j :: i <= j < 16 ==> Points[j] != name
    decreases 16 - i
  {
    if i < 16 && Points[i] != name {
      PointIndexFromSpec(name, i + 1);
    }
  }

  /** The lookup finds the position of a compass point and nothing for any other name. */
  lemma PointIndexSpec(name: string)
    ensures PointIndex(name).Some? ==> PointIndex(name).value < 16 && Points[PointIndex(name).value] == name
    ensures PointIndex(name).None? ==> name !in Points
  {
    PointIndexFromSpec(name, 0);
  }

  /** `cardinalToDegrees`: the bearing of a compass point, after trimming and upper-casing;
      null for an unknown name and for anything that is not a non-empty string. */
  function CardinalToDegrees(cardinal: Option<Json>): (r: Option<real>)
    ensures !(cardinal.Some? && cardinal.value.JStr? && cardinal.value.s != []) ==> r.None?
  {
    if cardinal.Some? && cardinal.value.JStr? && cardinal.value.s != [] then
      match PointIndex(LookupKey(cardinal.value.s))
      case Some(i) => Some(i as real * 22.5)
      case None => None
    else None
  }

  /** The name a compass point is looked up by: trimmed and upper-cased. */
  function LookupKey(s: string): string {
    Text.ToUpper(Text.Trim(s))
  }

  /** A non-empty string has a bearing exactly when its trimmed upper case is one of the
      sixteen names. */
  lemma CardinalToDegreesKnownNames(c: string)
    requires c != []
    ensures CardinalToDegrees(Some(JStr(c))).Some? <==> LookupKey(c) in Points
  {
    var key := LookupKey(c);
    PointIndexSpec(key);
    assert CardinalToDegrees(Some(JStr(c))).Some? <==> PointIndex(key).Some?;
    if PointIndex(key).Some? {
      assert Points[PointIndex(key).value] == key;
    }
  }

  /** What `degreesToCardinal` returns: null, undefined (a negative index into the table),
      or a compass point. */
  datatype Direction = NullDirection | UndefinedDirection | Named(name: string)

  /** `degreesToCardinal`: null for null; otherwise the compass point nearest the bearing,
      wrapping at 360. The remainder keeps the sign of its operand, so a bearing that rounds
      to a negative sector has no name (undefined) unless the sector is a multiple of 16. */
  function DegreesToCardinal(deg: Option<real>): (r: Direction)
    ensures deg.None? <==> r == NullDirection
    ensures deg.Some? && Round(deg.value / 22.5) >= 0 ==>
      r == Named(Points[Round(deg.value / 22.5) % 16])
    ensures r.Named? ==> r.name in Points
  {
    if deg.None? then NullDirection
    else
      var idx := IntRem(Round(deg.value / 22.5), 16);
      if 0 <= idx then Named(Points[idx]) else UndefinedDirection
  }

  lemma {:induction false} ToUpperOfUpper(s: string)
    requires forall i :: 0 <= i < |s| ==> 'A' <= s[i] <= 'Z'
    ensures Text.ToUpper(s) == s
  {
    if s != [] {
      ToUpperOfUpper(s[1..]);
      assert Text.UpperChar(s[0]) == [s[0]];
      assert s == [s[0]] + s[1..];
    }
  }

  /** Each compass point is found at its own position. */
  lemma PointIndexOfPoint(i: nat)
    requires i < 16
    ensures PointIndex(Points[i]) == Some(i)
  {
    PointsDistinct(i);
    PointIndexSpec(Points[i]);
  }

  /** A compass point is its own lookup key. */
  lemma KeyOfPoint(i: nat)
    requires i < 16
    ensures LookupKey(Points[i]) == Points[i]
  {
    var p := Points[i];
    assert forall k :: 0 <= k < |p| ==> 'A' <= p[k] <= 'Z';
    Text.TrimNoEdgeSpace(p);
    ToUpperOfUpper(p);
  }

  /** Each compass point names its own bearing. */
  lemma DegreesOfPoint(i: nat)
    requires i < 16
    ensures CardinalToDegrees(Some(JStr(Points[i]))) == Some(i as real * 22.5)
  {
    var p := Points[i];
    assert p != [];
    KeyOfPoint(i);
    PointIndexOfPoint(i);
    DegreesOfKey(p, i);
  }

  /** A name whose lookup key is found at position i has the bearing of position i. */
  lemma DegreesOfKey(c: string, i: nat)
    requires c != [] && PointIndex(LookupKey(c)) == Some(i)
    ensures CardinalToDegrees(Some(JStr(c))) == Some(i as real * 22.5)
  {
  }

  lemma SectorOfBearing(i: nat)
    requires i < 16
    ensures Round(i as real * 22.5 / 22.5) == i && IntRem(i, 16) == i
  {
    assert i as real * 22.5 / 22.5 == i as real;
  }

  /** Each bearing of the table is named by its own compass point. */
  lemma PointOfDegrees(i: nat)
    requires i < 16
    ensures DegreesToCardinal(Some(i as real * 22.5)) == Named(Points[i])
  {
    SectorOfBearing(i);
  }

  /** Every compass point survives the trip to degrees and back. */
  lemma CompassRoundTrip(i: nat)
    requires i < 16
    ensures DegreesToCardinal(CardinalToDegrees(Some(JStr(Points[i])))) == Named(Points[i])
  {
    DegreesOfPoint(i);
    PointOfDegrees(i);
  }

  /** No compass name is listed twice. */
  lemma PointsDistinct(i: nat)
    requires i < 16
    ensures forall j :: 0 <= j < 16 && Points[j] == Points[i] ==> j == i
  {}

  /** The name is trimmed and upper-cased before the lookup. */
  lemma CardinalToDegreesExample()
    ensures CardinalToDegrees(Some(JStr(" sw "))) == Some(225.0)
  {
    var s := " sw ";
    TrimmedSw(s);
    UpperSw("sw");
    assert Points[10] == "SW";
    PointIndexOfPoint(10);
    DegreesOfKey(s, 10);
  }

  lemma TrimmedSw(s: string)
    requires s == " sw "
    ensures Text.Trim(s) == "sw"
  {
    assert Text.LeadingSpaces(s[1..]) == 0;
    assert Text.TrimStart(s) == s[1..];
    assert s[1..] == "sw ";
    assert Text.TrailingSpaces(s[1..][..2]) == 0;
    assert Text.TrimEnd(s[1..]) == "sw";
  }

  lemma UpperSw(s: string)
    requires s == "sw"
    ensures Text.ToUpper(s) == "SW"
  {
    assert Text.ToUpper(s[1..]) == "W";
  }

  // ---------------------------------------------------------------- rating

  /** A rating and the sentence that explains it. */
  datatype Judgement = Judgement(rating: Rating, reason: string)

  /** `computeRating` of conditions.js. The rules are tried in order: wind over 20 kt is
      bad; with the air or the water temperature unknown, wind of 15 kt or more is bad;
      wind of 13 kt or more is caution; visibility under 3 miles is caution; otherwise good.
      A null wind never triggers a wind rule. */
  function ComputeRating(wind: Option<real>, visibility: Option<real>, airTemp: Option<real>,
                         waterTemp: Option<real>): (r: Judgement)
    ensures r.rating == Normalize.Bad <==>
      wind.Some? && (wind.value > 20.0 || ((airTemp.None? || waterTemp.None?) && wind.value >= 15.0))
    ensures r.rating == Normalize.Caution <==>
      r.rating != Normalize.Bad && ((wind.Some? && wind.value >= 13.0) || (visibility.Some? && visibility.value < 3.0))
  {
    if wind.Some? && wind.value > 20.0 then
      Judgement(Normalize.Bad, "Strong winds; rough bay expected.")
    else if (airTemp.None? || waterTemp.None?) && wind.Some? && wind.value >= 15.0 then
      Judgement(Normalize.Bad, "Limited data and breezy conditions; exercise caution.")
    else if wind.Some? && wind.value >= 13.0 then
      Judgement(Normalize.Caution, "Breezy; choppy water likely.")
    else if visibility.Some? && visibility.value < 3.0 then
      Judgement(Normalize.Caution, "Reduced visibility on the bay.")
    else
      Judgement(Normalize.Good, "Light winds; generally smooth conditions.")
  }

  /** With nothing known the rating is good. */
  lemma AllNullIsGood()
    ensures ComputeRating(None, None, None, None).rating == Normalize.Good
  {}

  /** What the service feeds the rating: the water temperature and the visibility are
      always null. Then 15 kt or more is bad, 13 kt up to 15 caution, anything less good. */
  lemma RatingOfServiceReadings(wind: Option<real>, airTemp: Option<real>)
    ensures var r := ComputeRating(wind, None, airTemp, None).rating;
      && (r == Normalize.Bad <==> wind.Some? && wind.value >= 15.0)
      && (r == Normalize.Caution <==> wind.Some? && 13.0 <= wind.value < 15.0)
      && (r == Normalize.Good <==> wind.None? || wind.value < 13.0)
  {}

  // ---------------------------------------------------------------- the NWS reading

  /** What `fetchNwsPointData` reads from the first forecast period. `windDirText` may be
      undefined (None) when the period has no direction and the bearing rounds to a negative
      sector. */
  datatype NwsReading = NwsReading(
    windSpeedKts: Option<real>,
    windGustKts: Option<real>,
    windDirDeg: Option<real>,
    windDirText: Option<Json>,
    airTempF: Option<real>,
    weatherSummary: Json,
    visibilityMi: Option<real>)

  /** `v?.[0]`: the first element of an array, the first character of a string, the
      property "0" of an object; undefined for anything else. */
  function Index0(v: Option<Json>): Option<Json> {
    if v.None? then None
    else
      match v.value
      case JArr(items) => if items == [] then None else Some(items[0])
      case JStr(s) => if s == [] then None else Some(JStr([s[0]]))
      case JObj(_) => Get(v.value, "0")
      case _ => None
  }

  /** The direction as text: the period's own value when truthy, else the name of the
      bearing (null, undefined or a compass point). */
  function DirectionText(given: Option<Json>, deg: Option<real>): (r: Option<Json>)
    ensures Present(given) ==> r == given
  {
    if Present(given) then given
    else
      match DegreesToCardinal(deg)
      case NullDirection => Some(JNull)
      case UndefinedDirection => None
      case Named(n) => Some(JStr(n))
  }

  /** The reading of one forecast period (a truthy value). */
  function ReadPeriod(period: Json): NwsReading {
    var dir := Get(period, "windDirection");
    var deg := if dir.Some? && dir.value.JNum? then Some(dir.value.n) else CardinalToDegrees(dir);
    var temp := Get(period, "temperature");
    NwsReading(
      ParseWindSpeedKts(Get(period, "windSpeed")),
      ParseWindSpeedKts(Or(Get(period, "windGust"), Some(JNull))),
      deg,
      DirectionText(dir, deg),
      if temp.Some? && temp.value.JNum? then Some(temp.value.n) else None,
      if Present(Get(period, "shortForecast")) then Get(period, "shortForecast").value else JNull,
      None)
  }

  /** `point?.properties?.forecastHourly || point?.properties?.forecast`. */
  function ForecastUrl(point: Json): Option<Json> {
    var props := Get(point, "properties");
    Or(GetOpt(props, "forecastHourly"), GetOpt(props, "forecast"))
  }

  /** `forecast?.properties?.periods?.[0]`. */
  function FirstPeriod(forecast: Json): Option<Json> {
    Index0(GetOpt(Get(forecast, "properties"), "periods"))
  }

  /** `fetchNwsPointData`: the points request, then the hourly (else the daily) forecast URL
      it names, then the first period of that forecast. Fails when a request fails, when
      there is no forecast URL, and when there is no first period. */
  function FetchNwsPointData(point: Upstream<Json>, forecast: Upstream<Json>): (r: Upstream<NwsReading>)
    ensures r.Ok? <==>
      point.Ok? && Present(ForecastUrl(point.value)) && forecast.Ok? && Present(FirstPeriod(forecast.value))
    ensures r.Ok? ==> r.value == ReadPeriod(FirstPeriod(forecast.value).value)
    ensures point.Failed? ==> r == Failed(point.message)
  {
    match point
    case Failed(m) => Failed(m)
    case Ok(p) =>
      if !Present(ForecastUrl(p)) then Failed("forecast endpoint unavailable")
      else
        match forecast
        case Failed(m) => Failed(m)
        case Ok(f) =>
          var period := FirstPeriod(f);
          if !Present(period) then Failed("no forecast periods available")
          else Ok(ReadPeriod(period.value))
  }

  // ---------------------------------------------------------------- the cache

  /** The conditions record the service returns. `stale` false stands for the record
      without a `stale` key. */
  datatype ConditionsRecord = ConditionsRecord(
    updatedAt: string,
    location: string,
    windSpeedKts: Option<real>,
    windGustKts: Option<real>,
    windDirDeg: Option<real>,
    windDirText: Option<Json>,
    airTempF: Option<real>,
    waterTempF: Option<real>,
    weatherSummary: Json,
    visibilityMi: Option<real>,
    rating: Rating,
    ratingReason: string,
    stale: bool)

  datatype CacheEntry = CacheEntry(data: ConditionsRecord, expiresAt: int)

  /** The record built from a good reading: the water temperature is null (its feed is a
      placeholder) and the rating is computed from the record. */
  function Enrich(rd: NwsReading, updatedAt: string): (r: ConditionsRecord)
    ensures r.waterTempF.None? && !r.stale
    ensures r.location == Location && r.updatedAt == updatedAt
    ensures Judgement(r.rating, r.ratingReason) == ComputeRating(r.windSpeedKts, r.visibilityMi, r.airTempF, r.waterTempF)
  {
    var j := ComputeRating(rd.windSpeedKts, rd.visibilityMi, rd.airTempF, None);
    ConditionsRecord(updatedAt, Location, rd.windSpeedKts, rd.windGustKts, rd.windDirDeg,
                     rd.windDirText, rd.airTempF, None, rd.weatherSummary, rd.visibilityMi,
                     j.rating, j.reason, false)
  }

  /** The record of a cold failure: every observation null, stale, rated from nothing. */
  function Fallback(updatedAt: string): (r: ConditionsRecord)
    ensures r.stale && r.location == Location && r.updatedAt == updatedAt
    ensures Judgement(r.rating, r.ratingReason) == ComputeRating(None, None, None, None)
  {
    var j := ComputeRating(None, None, None, None);
    ConditionsRecord(updatedAt, Location, None, None, None, Some(JNull), None, None, JNull, None,
                     j.rating, j.reason, true)
  }

  /** One call of `getCurrentConditions` as a transition: the record it returns and the cache
      after it. `now` is the clock, `stamp` the ISO time of the call. */
  function ConditionsStep(cached: Option<CacheEntry>, now: int, stamp: string,
                          point: Upstream<Json>, forecast: Upstream<Json>): (ConditionsRecord, Option<CacheEntry>)
  {
    if cached.Some? && cached.value.expiresAt > now then (cached.value.data, cached)
    else
      match FetchNwsPointData(point, forecast)
      case Ok(rd) =>
        var enriched := Enrich(rd, stamp);
        (enriched, Some(CacheEntry(enriched, now + CacheMs)))
      case Failed(_) =>
        if cached.Some? then (cached.value.data.(stale := true), cached)
        else (Fallback(stamp), cached)
  }

  /** A fresh entry is returned as it is, whatever the upstream would have said. */
  lemma FreshEntryIsReused(cached: Option<CacheEntry>, now: int, stamp: string,
                           point: Upstream<Json>, forecast: Upstream<Json>,
                           point2: Upstream<Json>, forecast2: Upstream<Json>)
    requires cached.Some? && cached.value.expiresAt > now
    ensures ConditionsStep(cached, now, stamp, point, forecast) == (cached.value.data, cached)
    ensures ConditionsStep(cached, now, stamp, point, forecast) == ConditionsStep(cached, now, stamp, point2, forecast2)
  {}

  /** A good reading is returned and cached for five minutes. */
  lemma SuccessIsCached(cached: Option<CacheEntry>, now: int, stamp: string,
                        point: Upstream<Json>, forecast: Upstream<Json>)
    requires !(cached.Some? && cached.value.expiresAt > now)
    requires FetchNwsPointData(point, forecast).Ok?
    ensures var (r, c) := ConditionsStep(cached, now, stamp, point, forecast);
      && c == Some(CacheEntry(r, now + CacheMs))
      && r == Enrich(FetchNwsPointData(point, forecast).value, stamp)
      && !r.stale
  {}

  /** A failure after a success returns the cached record marked stale, however old, and
      leaves the cache as it was. */
  lemma FailureServesStale(cached: Option<CacheEntry>, now: int, stamp: string,
                           point: Upstream<Json>, forecast: Upstream<Json>)
    requires cached.Some? && cached.value.expiresAt <= now
    requires FetchNwsPointData(point, forecast).Failed?
    ensures ConditionsStep(cached, now, stamp, point, forecast) == (cached.value.data.(stale := true), cached)
  {}

  /** A failure on a cold start returns the all-null record, stale and rated good, and caches
      nothing: the call never fails. */
  lemma ColdFailureFallsBack(now: int, stamp: string, point: Upstream<Json>, forecast: Upstream<Json>)
    requires FetchNwsPointData(point, forecast).Failed?
    ensures var (r, c) := ConditionsStep(None, now, stamp, point, forecast);
      && c.None? && r.stale && r.rating == Normalize.Good
      && r.windSpeedKts.None? && r.windGustKts.None? && r.windDirDeg.None? && r.airTempF.None?
      && r.waterTempF.None? && r.visibilityMi.None? && r.weatherSummary == JNull
  {}

  /** Every good reading with wind of 15 kt or more is rated bad: the water temperature is
      never known. */
  lemma BreezyReadingIsBad(rd: NwsReading, stamp: string)
    requires rd.windSpeedKts.Some? && rd.windSpeedKts.value >= 15.0
    ensures Enrich(rd, stamp).rating == Normalize.Bad
  {}

  /** The module-level `cachedConditions` and the function that reads and writes it. */
  class ConditionsService {
    var cached: Option<CacheEntry>

    constructor()
      ensures cached.None?
    {
      cached := None;
    }

    /** `getCurrentConditions`: never fails. */
    method GetCurrentConditions(now: int, stamp: string, point: Upstream<Json>, forecast: Upstream<Json>)
      returns (r: ConditionsRecord)
      modifies this
      ensures (r, cached) == ConditionsStep(old(cached), now, stamp, point, forecast)
    {
      if cached.Some? && cached.value.expiresAt > now {
        return cached.value.data;
      }
      var nws := FetchNwsPointData(point, forecast);
      if nws.Ok? {
        var enriched := Enrich(nws.value, stamp);
        cached := Some(CacheEntry(enriched, now + CacheMs));
        return enriched;
      }
      if cached.Some? {
        return cached.value.data.(stale := true);
      }
      r := Fallback(stamp);
    }
  }
}
