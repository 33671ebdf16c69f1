/** The station poller of src/pollers/pollConditions.js over the station table of
    src/config/stations.js: every station is polled (a failure gives an all-null record),
    the summary is built from the primary station, the wind field is attached when it
    could be fetched, and the snapshot is saved. */
module PollConditions {
  import opened Wrappers
  import opened Js
  import Normalize
  import NoaaWeather
  import GcoosField
  import SnapshotStore

  /** `STATIONS`, in the order of the table. */
  const Stations: seq<Normalize.StationConfig> := [
    Normalize.StationConfig("central_bay", "Mobile Bay Mid-Bay", 30.3, -88.0, "8737048"),
    Normalize.StationConfig("upper_bay", "Mobile River Entrance", 30.7, -88.0, "8735180"),
    Normalize.StationConfig("lower_bay", "Dauphin Island Bay Side", 30.25, -88.1, "8735180"),
    Normalize.StationConfig("gulf_entrance", "Mobile Bay Entrance", 30.21, -88.04, "8732899")
  ]

  /** `PRIMARY_STATION_ID`. */
  const PrimaryStationId: string := "central_bay"

  /** What the two requests of one station produced: the latest water reading (null when
      there is none) and the hourly forecast. */
  datatype StationFeed = StationFeed(water: Outcome<Option<Normalize.WaterReading>>,
                                     forecast: Outcome<seq<NoaaWeather.HourlyPeriod>>)

  /** `pollStation(config)`: never rejects; when either request rejects the record is built
      from the configuration alone. The tide phase is always null. */
  function PollStation(config: Normalize.StationConfig, feed: StationFeed): (r: Normalize.StationConditions)
    ensures r.stationId == config.id && r.name == config.name && r.tidePhase.None?
    ensures feed.water.Rejected? || feed.forecast.Rejected? ==>
      r == Normalize.BuildStationConditions(config, None, None, None)
    ensures feed.water.Resolved? && feed.forecast.Resolved? ==>
      r == Normalize.BuildStationConditions(config, feed.water.value, Some(feed.forecast.value), None)
  {
    if feed.water.Resolved? && feed.forecast.Resolved? then
      Normalize.BuildStationConditions(config, feed.water.value, Some(feed.forecast.value), None)
    else
      Normalize.BuildStationConditions(config, None, None, None)
  }

  /** A station whose poll failed reports every observation as null. */
  lemma FailedStationIsEmpty(config: Normalize.StationConfig, feed: StationFeed)
    requires feed.water.Rejected? || feed.forecast.Rejected?
    ensures var r := PollStation(config, feed);
      r.windSpeedKts.None? && r.windGustKts.None? && r.windDirDeg == JNull && r.airTempF == JNull
      && r.waterTempF.None? && r.waterLevelFt.None? && r.observedAt == JNull && r.source == "NOAA"
  {
    Normalize.EmptyStationConditions(config);
  }

  /** The records of all stations, one per configured station in table order. */
  function PollStations(configs: seq<Normalize.StationConfig>, feeds: seq<StationFeed>)
    : (r: seq<Normalize.StationConditions>)
    requires |feeds| == |configs|
    ensures |r| == |configs|
    ensures forall i :: 0 <= i < |r| ==> r[i] == PollStation(configs[i], feeds[i])
  {
    seq(|configs|, i requires 0 <= i < |configs| => PollStation(configs[i], feeds[i]))
  }

  /** The index of the first station with the given id, if any. */
  function FindStation(stations: seq<Normalize.StationConditions>, id: string): (k: Option<nat>)
    ensures k.Some? ==> (k.value < |stations| && stations[k.value].stationId == id
      && forall j :: 0 <= j < k.value ==> stations[j].stationId != id)
    ensures k.None? ==> forall j :: 0 <= j < |stations| ==> stations[j].stationId != id
  {
    if stations == [] then None
    else if stations[0].stationId == id then Some(0)
    else
      var k := FindStation(stations[1..], id);
      if k.Some? then Some(k.value + 1) else None
  }

  /** `stations.find(s => s.stationId === PRIMARY_STATION_ID) || stations[0]`. */
  function Primary(stations: seq<Normalize.StationConditions>): (r: Option<Normalize.StationConditions>)
    ensures r.None? <==> stations == []
    ensures r.Some? ==> r.value in stations
  {
    var k := FindStation(stations, PrimaryStationId);
    if k.Some? then Some(stations[k.value])
    else if stations != [] then Some(stations[0])
    else None
  }

  /** The primary station is the first with the primary id, else the first one; the summary
      is null only for an empty list. */
  lemma PrimaryIsChosen(stations: seq<Normalize.StationConditions>)
    ensures (exists i :: 0 <= i < |stations| && stations[i].stationId == PrimaryStationId) ==>
      Primary(stations).Some? && Primary(stations).value.stationId == PrimaryStationId
    ensures (forall i :: 0 <= i < |stations| ==> stations[i].stationId != PrimaryStationId) && stations != [] ==>
      Primary(stations) == Some(stations[0])
  {
  }

  // ------------------------------------------------------------------ the snapshot as JSON

  /** A nullable number as stored: NaN and null both serialise as null. */
  function OptNumJson(n: Option<Num>): Json {
    if n.Some? then NumJson(n.value) else JNull
  }

  /** A station record as a JSON object. */
  function StationJson(s: Normalize.StationConditions): Json {
    JObj(map[
      "stationId" := JStr(s.stationId), "name" := JStr(s.name), "lat" := JNum(s.lat), "lon" := JNum(s.lon),
      "windSpeedKts" := OptNumJson(s.windSpeedKts), "windGustKts" := OptNumJson(s.windGustKts),
      "windDirDeg" := s.windDirDeg, "airTempF" := s.airTempF, "waterTempF" := OptNumJson(s.waterTempF),
      "waterLevelFt" := OptNumJson(s.waterLevelFt),
      "tidePhase" := if s.tidePhase.Some? then JStr(Normalize.PhaseName(s.tidePhase.value)) else JNull,
      "source" := JStr(s.source), "observedAt" := s.observedAt])
  }

  /** A summary as a JSON object. */
  function SummaryJson(s: Normalize.Summary): Json {
    JObj(map[
      "rating" := JStr(Normalize.RatingName(s.rating)), "message" := JStr(s.message),
      "stationId" := JStr(s.stationId), "stationName" := JStr(s.stationName), "area" := JStr(s.area),
      "windSpeedKts" := OptNumJson(s.windSpeedKts), "windDirDeg" := s.windDirDeg,
      "waveHeightFt" := OptNumJson(s.waveHeightFt),
      "tidePhase" := if s.tidePhase.Some? then JStr(Normalize.PhaseName(s.tidePhase.value)) else JNull,
      "updatedAt" := JStr(s.updatedAt)])
  }

  /** A wind field as a JSON object. */
  function WindFieldJson(f: GcoosField.WindField): Json {
    JObj(map[
      "meta" := JObj(map["latStep" := JNum(f.meta.latStep), "lonStep" := JNum(f.meta.lonStep),
                         "description" := JStr(f.meta.description)]),
      "vectors" := JArr(seq(|f.vectors|, i requires 0 <= i < |f.vectors| =>
        JObj(map["lat" := NumJson(f.vectors[i].lat), "lon" := NumJson(f.vectors[i].lon),
                 "u" := NumJson(f.vectors[i].u), "v" := NumJson(f.vectors[i].v)])))])
  }

  /** The snapshot `{ updatedAt, summary, stations, field: { wind } }`. */
  function SnapshotJson(updatedAt: string, summary: Option<Normalize.Summary>,
                        stations: seq<Normalize.StationConditions>, wind: Option<GcoosField.WindField>): (r: Json)
    ensures r.JObj? && r.fields.Keys == {"updatedAt", "summary", "stations", "field"}
    ensures r.fields["field"] == JObj(map["wind" := if wind.Some? then WindFieldJson(wind.value) else JNull])
  {
    JObj(map[
      "updatedAt" := JStr(updatedAt),
      "summary" := if summary.Some? then SummaryJson(summary.value) else JNull,
      "stations" := JArr(seq(|stations|, i requires 0 <= i < |stations| => StationJson(stations[i]))),
      "field" := JObj(map["wind" := if wind.Some? then WindFieldJson(wind.value) else JNull])])
  }

  // ------------------------------------------------------------------ one poll

  /** The snapshot `runPollOnce` builds from the station feeds and the wind-field response;
      `stamp` is the clock. */
  function Assemble(feeds: seq<StationFeed>, windResponse: Upstream<string>, stamp: string): Json
    requires |feeds| == |Stations|
  {
    var stations := PollStations(Stations, feeds);
    var primary := Primary(stations);
    var summary := if primary.Some? then Some(Normalize.BuildSummary(primary.value, stamp)) else None;
    SnapshotJson(stamp, summary, stations, GcoosField.GetWindField(windResponse))
  }

  /** `runPollOnce`: builds the snapshot, saves it (the write's failure is swallowed by the
      store) and returns it. */
  method RunPollOnce(store: SnapshotStore.Store, feeds: seq<StationFeed>, windResponse: Upstream<string>,
                     stamp: string, write: Option<string>)
    returns (snapshot: Json)
    requires |feeds| == |Stations|
    modifies store
    ensures snapshot == Assemble(feeds, windResponse, stamp)
    ensures SnapshotStore.Slot(store.memory, store.file)
      == SnapshotStore.SaveStep(old(SnapshotStore.Slot(store.memory, store.file)), snapshot, write)
  {
    var stations := PollStations(Stations, feeds);
    var primary := Primary(stations);
    var summary := if primary.Some? then Some(Normalize.BuildSummary(primary.value, stamp)) else None;
    var wind := GcoosField.GetWindField(windResponse);
    snapshot := SnapshotJson(stamp, summary, stations, wind);
    store.Save(snapshot, write);
  }

  /** With the station table, the records follow the table, every tide phase is null, and
      the summary is that of the central-bay station. */
  lemma SnapshotFollowsTable(feeds: seq<StationFeed>, windResponse: Upstream<string>, stamp: string)
    requires |feeds| == |Stations|
    ensures var stations := PollStations(Stations, feeds);
      |stations| == |Stations|
      && (forall i :: 0 <= i < |stations| ==> stations[i].stationId == Stations[i].id && stations[i].tidePhase.None?)
      && Assemble(feeds, windResponse, stamp).fields["summary"]
         == SummaryJson(Normalize.BuildSummary(stations[0], stamp))
  {
    var stations := PollStations(Stations, feeds);
    assert stations[0].stationId == PrimaryStationId;
  }

  /** A failed wind-field download leaves `field.wind` null, and the snapshot is saved all
      the same. */
  lemma WindFailureStillSaves(feeds: seq<StationFeed>, message: string, stamp: string,
                              slot: SnapshotStore.Slot, write: Option<string>)
    requires |feeds| == |Stations|
    ensures var snapshot := Assemble(feeds, Failed(message), stamp);
      snapshot.fields["field"] == JObj(map["wind" := JNull])
      && SnapshotStore.SaveStep(slot, snapshot, write).memory == snapshot
  {
  }
}
