/** The National Weather Service client of src/services/nwsClient.js: three single-slot
    caches (point metadata for ten minutes, the latest observation and the forecast for
    five), none of which falls back to stale data, plus the unit converters and the
    sixteen-point compass. The caches are not keyed by coordinates, and the coordinates
    only shape request URLs, so they do not appear here; each request's response is an
    input. */
module NwsClient {
  import opened Wrappers
  import opened Js
  import Conditions

  /** One cache: `{ value, expiresAt }`, at start `{ null, 0 }`. */
  datatype Cell = Cell(value: Json, expiresAt: int)

  /** The three caches. */
  datatype Caches = Caches(metadata: Cell, observation: Cell, forecast: Cell)

  const MetadataTtlMs: int := 10 * 60 * 1000
  const ObservationTtlMs: int := 5 * 60 * 1000
  const ForecastTtlMs: int := 5 * 60 * 1000

  /** `cacheFresh(cache)` at time `now`. */
  function CacheFresh(c: Cell, now: int): (r: bool)
    ensures !Truthy(c.value) ==> !r
    ensures Truthy(c.value) ==> (r <==> c.expiresAt > now)
  {
    Truthy(c.value) && c.expiresAt > now
  }

  /** The keys of the point metadata that are kept. */
  const MetaKeys: set<string> := {"forecast", "forecastHourly", "observationStations", "forecastGridData"}

  /** The metadata taken from a points response: the four URLs of `data.properties || {}`
      (absent ones left out); None when `data` is null, which throws. */
  function MetaOf(data: Json): (r: Option<Json>)
    ensures r.None? <==> data == JNull
    ensures r.Some? ==> r.value.JObj? && r.value.fields.Keys <= MetaKeys
    ensures r.Some? ==> forall k :: k in MetaKeys ==>
      Get(r.value, k) == Get(Or(Get(data, "properties"), Some(JObj(map[]))).value, k)
  {
    if data == JNull then None
    else
      var props := Or(Get(data, "properties"), Some(JObj(map[]))).value;
      Some(JObj(map k | k in MetaKeys && Get(props, k).Some? :: Get(props, k).value))
  }

  /** `getPointsMetadata()`: `points` is the response of the points request. */
  function MetadataStep(c: Caches, now: int, points: Upstream<Json>): (Outcome<Json>, Caches) {
    if CacheFresh(c.metadata, now) then (Resolved(c.metadata.value), c)
    else
      match points
      case Failed(m) => (Rejected(m), c)
      case Ok(data) =>
        match MetaOf(data)
        case None => (Rejected(TypeErrorMessage), c)
        case Some(meta) => (Resolved(meta), c.(metadata := Cell(meta, now + MetadataTtlMs)))
  }

  /** The station id of a station list: `stationList.features?.[0]?.id`; None when the list
      is null, which throws. */
  function FirstStationId(stationList: Json): Option<Option<Json>> {
    if stationList == JNull then None
    else Some(GetOpt(Conditions.Index0(Get(stationList, "features")), "id"))
  }

  /** `getLatestObservation()`: `stations` and `latest` are the responses of the station
      list request and the latest observation request. */
  function ObservationStep(c: Caches, now: int, points: Upstream<Json>, stations: Upstream<Json>,
                           latest: Upstream<Json>): (Outcome<Json>, Caches)
  {
    if CacheFresh(c.observation, now) then (Resolved(c.observation.value), c)
    else
      var (meta, c1) := MetadataStep(c, now, points);
      if meta.Rejected? then (meta, c1)
      else if !Present(Get(meta.value, "observationStations")) then
        (Rejected("observationStations not available"), c1)
      else
        match stations
        case Failed(m) => (Rejected(m), c1)
        case Ok(list) =>
          match FirstStationId(list)
          case None => (Rejected(TypeErrorMessage), c1)
          case Some(station) =>
            if !Present(station) then (Rejected("No observation station found"), c1)
            else
              match latest
              case Failed(m) => (Rejected(m), c1)
              case Ok(obs) => (Resolved(obs), c1.(observation := Cell(obs, now + ObservationTtlMs)))
  }

  /** `getForecast()`: `forecast` is the response of the forecast request. */
  function ForecastStep(c: Caches, now: int, points: Upstream<Json>, forecast: Upstream<Json>)
    : (Outcome<Json>, Caches)
  {
    if CacheFresh(c.forecast, now) then (Resolved(c.forecast.value), c)
    else
      var (meta, c1) := MetadataStep(c, now, points);
      if meta.Rejected? then (meta, c1)
      else if !Present(Get(meta.value, "forecast")) then (Rejected("forecast endpoint not available"), c1)
      else
        match forecast
        case Failed(m) => (Rejected(m), c1)
        case Ok(fc) => (Resolved(fc), c1.(forecast := Cell(fc, now + ForecastTtlMs)))
  }

  class Client {
    var metadata: Cell
    var observation: Cell
    var forecast: Cell

    constructor()
      ensures metadata == Cell(JNull, 0) && observation == Cell(JNull, 0) && forecast == Cell(JNull, 0)
    {
      metadata := Cell(JNull, 0);
      observation := Cell(JNull, 0);
      forecast := Cell(JNull, 0);
    }

    /** `getPointsMetadata`. */
    method GetPointsMetadata(now: int, points: Upstream<Json>) returns (r: Outcome<Json>)
      modifies this
      ensures (r, Caches(metadata, observation, forecast))
        == MetadataStep(old(Caches(metadata, observation, forecast)), now, points)
    {
      if CacheFresh(metadata, now) {
        return Resolved(metadata.value);
      }
      if points.Failed? {
        return Rejected(points.message);
      }
      var meta := MetaOf(points.value);
      if meta.None? {
        return Rejected(TypeErrorMessage);
      }
      metadata := metadata.(value := meta.value);
      metadata := metadata.(expiresAt := now + MetadataTtlMs);
      r := Resolved(meta.value);
    }

    /** `getLatestObservation`. */
    method GetLatestObservation(now: int, points: Upstream<Json>, stations: Upstream<Json>, latest: Upstream<Json>)
      returns (r: Outcome<Json>)
      modifies this
      ensures (r, Caches(metadata, observation, forecast))
        == ObservationStep(old(Caches(metadata, observation, forecast)), now, points, stations, latest)
    {
      if CacheFresh(observation, now) {
        return Resolved(observation.value);
      }
      var meta := GetPointsMetadata(now, points);
      if meta.Rejected? {
        return meta;
      }
      if !Present(Get(meta.value, "observationStations")) {
        return Rejected("observationStations not available");
      }
      if stations.Failed? {
        return Rejected(stations.message);
      }
      var station := FirstStationId(stations.value);
      if station.None? {
        return Rejected(TypeErrorMessage);
      }
      if !Present(station.value) {
        return Rejected("No observation station found");
      }
      if latest.Failed? {
        return Rejected(latest.message);
      }
      observation := observation.(value := latest.value);
      observation := observation.(expiresAt := now + ObservationTtlMs);
      r := Resolved(latest.value);
    }

    /** `getForecast`. */
    method GetForecast(now: int, points: Upstream<Json>, response: Upstream<Json>) returns (r: Outcome<Json>)
      modifies this
      ensures (r, Caches(metadata, observation, forecast))
        == ForecastStep(old(Caches(metadata, observation, forecast)), now, points, response)
    {
      if CacheFresh(forecast, now) {
        return Resolved(forecast.value);
      }
      var meta := GetPointsMetadata(now, points);
      if meta.Rejected? {
        return meta;
      }
      if !Present(Get(meta.value, "forecast")) {
        return Rejected("forecast endpoint not available");
      }
      if response.Failed? {
        return Rejected(response.message);
      }
      forecast := forecast.(value := response.value);
      forecast := forecast.(expiresAt := now + ForecastTtlMs);
      r := Resolved(response.value);
    }
  }

  // ------------------------------------------------------------------ properties of the caches

  /** A fresh cache is returned as it is, and nothing is requested or stored. */
  lemma FreshCachesAreReused(c: Caches, now: int, points: Upstream<Json>, stations: Upstream<Json>,
                             latest: Upstream<Json>, forecast: Upstream<Json>)
    ensures CacheFresh(c.metadata, now) ==> MetadataStep(c, now, points) == (Resolved(c.metadata.value), c)
    ensures CacheFresh(c.observation, now) ==>
      ObservationStep(c, now, points, stations, latest) == (Resolved(c.observation.value), c)
    ensures CacheFresh(c.forecast, now) ==>
      ForecastStep(c, now, points, forecast) == (Resolved(c.forecast.value), c)
  {
  }

  /** A stored value lives for its cache's window: ten minutes for the metadata, five for
      the observation and the forecast. */
  lemma StoredValuesExpireAfterTheirWindow(c: Caches, now: int, points: Upstream<Json>, stations: Upstream<Json>,
                                           latest: Upstream<Json>, forecast: Upstream<Json>)
    ensures var (r, c1) := MetadataStep(c, now, points);
      r.Resolved? && !CacheFresh(c.metadata, now) ==> c1.metadata == Cell(r.value, now + 10 * 60 * 1000)
    ensures var (r, c1) := ObservationStep(c, now, points, stations, latest);
      r.Resolved? && !CacheFresh(c.observation, now) ==> c1.observation == Cell(r.value, now + 5 * 60 * 1000)
    ensures var (r, c1) := ForecastStep(c, now, points, forecast);
      r.Resolved? && !CacheFresh(c.forecast, now) ==> c1.forecast == Cell(r.value, now + 5 * 60 * 1000)
  {
  }

  /** A failing call leaves its own cache as it was and serves nothing stale: the error
      propagates. Only the metadata may have been refreshed on the way. */
  lemma FailuresPropagate(c: Caches, now: int, points: Upstream<Json>, stations: Upstream<Json>,
                          latest: Upstream<Json>, forecast: Upstream<Json>)
    ensures var (r, c1) := MetadataStep(c, now, points);
      r.Rejected? ==> c1 == c
    ensures var (r, c1) := ObservationStep(c, now, points, stations, latest);
      r.Rejected? ==> c1.observation == c.observation && c1.forecast == c.forecast
    ensures var (r, c1) := ForecastStep(c, now, points, forecast);
      r.Rejected? ==> c1.forecast == c.forecast && c1.observation == c.observation
    ensures points.Failed? && !CacheFresh(c.metadata, now) ==>
      MetadataStep(c, now, points) == (Rejected(points.message), c)
  {
  }

  /** The observation is never served stale: with a failing latest-observation request and
      an expired observation, the call rejects with that failure. */
  lemma ExpiredObservationIsNotServed(c: Caches, now: int, points: Upstream<Json>, stations: Upstream<Json>,
                                      message: string)
    requires !CacheFresh(c.observation, now)
    ensures ObservationStep(c, now, points, stations, Failed(message)).0.Rejected?
  {
  }

  // ------------------------------------------------------------------ converters

  /** `toFahrenheit`: null only for null or undefined (None). */
  function ToFahrenheit(celsius: Option<Num>): (r: Option<Num>)
    ensures r.None? <==> celsius.None?
    ensures celsius == Some(N(0.0)) ==> r == Some(N(32.0))
    ensures celsius == Some(N(100.0)) ==> r == Some(N(212.0))
  {
    match celsius
    case None => None
    case Some(NaN) => Some(NaN)
    case Some(N(c)) => Some(N(c * 9.0 / 5.0 + 32.0))
  }

  /** `toMph`: null only for null or undefined. */
  function ToMph(metersPerSecond: Option<Num>): (r: Option<Num>)
    ensures r.None? <==> metersPerSecond.None?
    ensures metersPerSecond == Some(N(0.0)) ==> r == Some(N(0.0))
  {
    match metersPerSecond
    case None => None
    case Some(NaN) => Some(NaN)
    case Some(N(v)) => Some(N(v * 2.23694))
  }

  /** `metersToMiles`: null only for null or undefined. */
  function MetersToMiles(meters: Option<Num>): (r: Option<Num>)
    ensures r.None? <==> meters.None?
    ensures meters == Some(N(0.0)) ==> r == Some(N(0.0))
  {
    match meters
    case None => None
    case Some(NaN) => Some(NaN)
    case Some(N(v)) => Some(N(v * 0.000621371))
  }

  /** The converters preserve order on numbers. */
  lemma ConvertersAreIncreasing(a: real, b: real)
    requires a < b
    ensures ToFahrenheit(Some(N(a))).value.v < ToFahrenheit(Some(N(b))).value.v
    ensures ToMph(Some(N(a))).value.v < ToMph(Some(N(b))).value.v
    ensures MetersToMiles(Some(N(a))).value.v < MetersToMiles(Some(N(b))).value.v
  {
  }

  // ------------------------------------------------------------------ compass

  /** `toCardinal(deg)`: null for null, undefined and NaN; otherwise the nearest of the
      sixteen points of the bearing taken modulo 360. The remainders keep the sign of their
      operand, so a negative bearing more than half a sector west of north has no name. */
  function ToCardinal(deg: Option<Num>): (r: Conditions.Direction)
    ensures r == Conditions.NullDirection <==> deg.None? || deg.value.NaN?
    ensures deg.Some? && deg.value.N? ==> r == SectorName(Mod360(deg.value.v))
  {
    if deg.None? || deg.value.NaN? then Conditions.NullDirection
    else SectorName(Mod360(deg.value.v))
  }

  /** The point of a bearing already taken modulo 360: `Math.round(m / 22.5) % 16` indexes
      the table, and a negative index has no name. */
  function SectorName(m: real): (r: Conditions.Direction)
    ensures r != Conditions.NullDirection
    ensures r.Named? ==> r.name in Conditions.Points
    ensures m >= 0.0 ==> r == Conditions.Named(Conditions.Points[Round(m / 22.5) % 16])
  {
    var idx := IntRem(Round(m / 22.5), 16);
    if 0 <= idx then Conditions.Named(Conditions.Points[idx]) else Conditions.UndefinedDirection
  }

  /** Bearings within half a sector below 360 wrap to "N". */
  lemma NearlyFullCircleIsNorth(d: real)
    requires 348.75 <= d < 360.0
    ensures ToCardinal(Some(N(d))) == Conditions.Named("N")
  {
    assert Trunc(d / 360.0) == 0;
    assert Mod360(d) == d;
    assert Round(d / 22.5) == 16;
  }

  /** A negative bearing more than half a sector west of north, and not within the last half
      sector before -360, indexes the table below 0, so its name is undefined. */
  lemma WestOfNorthIsUnnamed(d: real)
    requires -348.75 < d < -11.25
    ensures ToCardinal(Some(N(d))) == Conditions.UndefinedDirection
  {
    assert Trunc(d / 360.0) == 0;
    assert Mod360(d) == d;
    var k := Round(d / 22.5);
    assert -15 <= k <= -1;
    assert IntRem(k, 16) == k;
  }

  /** A whole turn more or less does not change the point of a non-negative bearing. */
  lemma FullTurnIsSamePoint(d: real)
    requires 0.0 <= d
    ensures ToCardinal(Some(N(d + 360.0))) == ToCardinal(Some(N(d)))
  {
    FullTurnSameRemainder(d);
  }

  lemma FullTurnSameRemainder(d: real)
    requires 0.0 <= d
    ensures Mod360(d + 360.0) == Mod360(d)
  {
    var k := Trunc(d / 360.0);
    assert Trunc((d + 360.0) / 360.0) == k + 1;
  }
}
