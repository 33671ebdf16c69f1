# CheckTheBay backend core, modelled in Dafny

CheckTheBay reports on-the-water conditions for Mobile Bay. Its backend polls public
feeds, caches them, and reduces them to a small set of records. These are per-station
conditions, a one-line summary with a good / caution / rough rating, a wind field, tide
extremes, and the radar image. The records are written to a snapshot file.

This project models that core in Dafny and proves what the code promises about it.
There is one module per source file:

- **`Normalize`** (src/lib/normalize.js):
  - the tide phase from a prediction series (a stable sort by date, then the first
    prediction after now);
  - the rating from wind and water level;
  - the summary sentence;
  - the station and summary records.
- **`Conditions`** (src/lib/conditions.js):
  - wind speeds parsed from text, averaged and converted to knots;
  - the sixteen-point compass in both directions;
  - the rating rules;
  - reading the National Weather Service forecast;
  - the five-minute cache, which serves stale data on failure.
- **`NoaaWeather`** (src/lib/noaaWeather.js): the hourly forecast and its wind-speed parser.
- **`Poll`** (src/polling/poll.js):
  - the empty conditions template;
  - the sequential merge of the six scrapers' results, collecting their errors;
  - the stale / fresh / failed payloads;
  - the in-memory and on-disk current conditions.
- **`WorldTides`** (src/lib/worldTides.js):
  - the cache keyed by coordinates rounded with `toFixed(4)`;
  - normalisation of the WorldTides response;
  - the fallback to a local sample.
- **`SnapshotStore`**, **`PollTides`**, **`PollConditions`**, **`GcoosField`**: the snapshot
  store, the tide poller, the station poller (with the station table of
  src/config/stations.js) and the CSV wind field.
- **`NwsClient`**, **`RadarService`**: the three single-slot National Weather Service caches,
  the unit converters, and the radar snapshot cache.
- **`Parsing`** (src/utils/parsing.js): trimmed text, numbers inside noisy text, and the
  eight-point compass.
- **`LabelScan`** (index.js): reading readings off a monitoring page by label.
- **`Cheerio`** (vendor/cheerio/index.js): the vendored `<img>` selector engine.

Two shared modules give JavaScript meaning to the values:

- **`Js`**:
  - JSON values and numbers that may be NaN;
  - truthiness, `||`, `??` and property reads;
  - object and array spread;
  - `Math.round`, and `%` truncating toward zero;
  - `Number(string)`.
- **`Text`**: whitespace as `trim` and `\s` see it, case mapping, substring search, and
  decimal literals as `parseFloat` reads them.

Every module-level cache or store that the source updates in place is a class. The
classes are `Conditions.ConditionsService`, `NwsClient.Client`, `RadarService.RadarCache`,
`WorldTides.TideCache`, `SnapshotStore.Store` and `Poll.Poller`. Each of their methods is
proved equal to a transition function on the old state: the fields and the result after
the call are what the function gives. Lemmas about those functions carry the properties:

- a fresh entry is reused;
- a failure serves stale data or the sample;
- errors accumulate in order;
- a save is visible to the next load.

The clock and the network are inputs:

- `now` is `Date.now()`;
- `stamp` is the ISO rendering of the same instant;
- each upstream response is `Ok(value)` or `Failed(message)`;
- each file write is `None` (succeeded) or `Some(message)` (failed).

## Model

| member | source | states |
|---|---|---|
| Normalize.PhaseName | src/lib/normalize.js:13 | a tide phase is named by a non-empty lower-case word ("rising", "falling", "slack") |
| Normalize.Dated | src/lib/normalize.js:34-36 | the predictions whose time is a valid date are kept, in order; none is left exactly when no time is valid |
| Normalize.Insert | src/lib/normalize.js:37 | inserting into a date-sorted list keeps it sorted and adds exactly the new point (multiset) |
| Normalize.SortByDate | src/lib/normalize.js:37 | the sort yields a date-sorted permutation of its input |
| Normalize.SortByDateStable | src/lib/normalize.js:37 | the sort is stable: the points of each date keep their relative order |
| Normalize.InsertAtDate | src/lib/normalize.js:37 | inserting a point only adds it, in front, to the points of its own date |
| Normalize.FirstAfter | src/lib/normalize.js:38 | the search stops at the first point later than now, every earlier point being at or before now |
| Normalize.CurrentIsFirstAfterNow | src/lib/normalize.js:38-40 | the current point is the earliest point after now, or the last point when none is after now |
| Normalize.Minus | src/lib/normalize.js:42 | a height difference is a number exactly when both heights are |
| Normalize.Classify | src/lib/normalize.js:43-44 | slack under 0.05 ft either way, rising at 0.05 ft or more, falling otherwise (including NaN) |
| Normalize.TidePhaseFromSeries | src/lib/normalize.js:32-45 | there is a phase exactly when some prediction has a valid time |
| Normalize.Timeline | src/lib/normalize.js:34-37 | the timeline is the date-sorted permutation of the dated predictions |
| Normalize.TidePhaseIsTrend | src/lib/normalize.js:38-44 | the phase classifies the height change from the point before the current one to the current one |
| Normalize.EarliestCurrentIsSlack | src/lib/normalize.js:39-43 | when the current point is the first, it is compared with itself, so the phase is slack (falling for a NaN height) |
| Normalize.TidePhaseRisingExample | src/lib/normalize.js:32-45 | two unsorted predictions with now between them give "rising" |
| Normalize.RatingOf | src/lib/normalize.js:47-57 | bad exactly above 20 kt or beyond 2 ft of water level; good exactly at most 12 kt and within 1.5 ft; caution otherwise |
| Normalize.RatingMonotoneInWind | src/lib/normalize.js:47-57 | more wind never gives a milder rating |
| Normalize.RatingMonotoneInWaterLevel | src/lib/normalize.js:47-57 | a water level further from zero never gives a milder rating |
| Normalize.RatingNullWindIsCalm | src/lib/normalize.js:48 | a null or NaN wind rates as 0 kt |
| Normalize.StatusWord | src/lib/normalize.js:71 | "Good" exactly for "good", "Caution" exactly for "caution", "Rough" otherwise |
| Normalize.WindPiece | src/lib/normalize.js:63-67 | "Winds n/a" exactly when the wind is null |
| Normalize.TidePiece | src/lib/normalize.js:68-70 | the tide piece ends in " tide" |
| Normalize.SummaryParts | src/lib/normalize.js:59-73 | the summary is the status word, " conditions. ", the wind piece and the tide tail, with nothing trimmed |
| Normalize.SummaryStartsWithStatus | src/lib/normalize.js:71-72 | the summary starts with the status word |
| Normalize.SummaryWindUnknown | src/lib/normalize.js:63-67 | the summary mentions "Winds n/a" exactly when the wind is null |
| Normalize.SummaryTide | src/lib/normalize.js:68-72 | the summary mentions " tide" exactly when there is a tide phase, and then ends with "<phase> tide." |
| Normalize.FirstTruthy | src/lib/normalize.js:90 | `a \|\| b \|\| null`: the first truthy value, else null |
| Normalize.BuildStationConditions | src/lib/normalize.js:75-92 | the identity and position come from the config, and gust and water temperature are null; wind, direction and air temperature come from the first forecast hour (null without one); the water level comes from the reading; the time comes from the reading, else the first hour |
| Normalize.EmptyStationConditions | src/lib/normalize.js:75-92 | without water, forecast or phase every reading is null |
| Normalize.BuildSummary | src/lib/normalize.js:94-108 | the rating is computeRating of the record, and the message is the summary for that rating; the other fields are copied, the area is "Mobile Bay" and the wave height is null |
| Normalize.SummaryMessageMatchesRating | src/lib/normalize.js:95-98 | the message starts with the status word of the record's own rating |
| Conditions.RoundTenth | src/lib/conditions.js:17 | `Math.round(x*10)/10` is within 0.05 of x |
| Conditions.NumberRuns | src/lib/conditions.js:20-22 | the numbers of a text are non-negative, and there are none exactly when the text has no digit |
| Conditions.DecimalRunOfFraction | src/lib/conditions.js:20-22 | a match `ds.fs` (digits on both sides of the point) spans both runs and has the value ds + fs/10^\|fs\| |
| Conditions.DecimalRunOfWhole | src/lib/conditions.js:20-22 | digits not followed by another digit or by '.' and a digit match alone and have the digits' value |
| Conditions.NumberRunsOfFraction | src/lib/conditions.js:20-22 | a text starting with `ds.fs` lists that value first, then the numbers of the text after it |
| Conditions.NumberRunsOfWhole | src/lib/conditions.js:20-22 | a text starting with a whole number lists the digits' value first, then the numbers of the text after it |
| Conditions.ParseWindSpeedKts | src/lib/conditions.js:14-26 | there is a result exactly for a number, or for a string with a digit; a number is converted from mph, a string by the mean of its numbers, each rounded to a tenth |
| Conditions.ParseWindSpeedKtsRange | src/lib/conditions.js:20-25 | a range of two two-digit numbers separated by text without digits (as in "10 to 20 mph") reads as the mean of the two, converted to knots, within 0.05 |
| Conditions.SkipNonDigits | src/lib/conditions.js:20 | characters that are not digits contribute no number |
| Conditions.PointIndexSpec | src/lib/conditions.js:30-49 | the index of a name among the sixteen points, none for any other name |
| Conditions.CardinalToDegrees | src/lib/conditions.js:28-50 | null for anything but a non-empty string |
| Conditions.CardinalToDegreesKnownNames | src/lib/conditions.js:48-49 | a string has a bearing exactly when, trimmed and upper-cased, it names one of the sixteen points |
| Conditions.DegreesToCardinal | src/lib/conditions.js:52-57 | null exactly for a null bearing; otherwise the point at `Math.round(deg/22.5) % 16` when that index is not negative |
| Conditions.DegreesOfPoint | src/lib/conditions.js:30-49 | the i-th point is at 22.5·i degrees |
| Conditions.PointOfDegrees | src/lib/conditions.js:52-57 | 22.5·i degrees is the i-th point |
| Conditions.CompassRoundTrip | src/lib/conditions.js:28-57 | name → degrees → name gives back every one of the sixteen points |
| Conditions.PointsDistinct | src/lib/conditions.js:54 | the sixteen names are distinct |
| Conditions.CardinalToDegreesExample | src/lib/conditions.js:48-49 | " sw " is 225 degrees |
| Conditions.ComputeRating | src/lib/conditions.js:59-73 | bad exactly above 20 kt, or at 15 kt or more with a temperature missing; caution exactly when not bad and at 13 kt or more or under 3 mi visibility |
| Conditions.AllNullIsGood | src/lib/conditions.js:59-73 | with no readings the rating is good |
| Conditions.RatingOfServiceReadings | src/lib/conditions.js:59-73 | with no water temperature or visibility: bad from 15 kt, caution from 13 kt, good below or without wind |
| Conditions.DirectionText | src/lib/conditions.js:111 | a truthy direction from the period is kept as it is |
| Conditions.FetchNwsPointData | src/lib/conditions.js:96-117 | succeeds exactly when both requests succeed, the point has a forecast URL and the forecast has a first period; the reading is then that period's; a failed point request propagates its error |
| Conditions.Enrich | src/lib/conditions.js:130-146 | the fresh record is not stale, has no water temperature, and its rating is computeRating of its own readings |
| Conditions.Fallback | src/lib/conditions.js:152-165 | the fallback record is stale and rated from all-null readings |
| Conditions.FreshEntryIsReused | src/lib/conditions.js:120-123 | an unexpired entry is returned as it is, whatever the upstream does |
| Conditions.SuccessIsCached | src/lib/conditions.js:124-146 | a successful fetch is returned and cached for five minutes |
| Conditions.FailureServesStale | src/lib/conditions.js:147-151 | after a failure an expired entry is served, marked stale |
| Conditions.ColdFailureFallsBack | src/lib/conditions.js:152-165 | a failure with nothing cached gives the all-null, stale, good record and caches nothing |
| Conditions.BreezyReadingIsBad | src/lib/conditions.js:63-64 | with no water temperature, 15 kt or more is always bad |
| Conditions.ConditionsService.GetCurrentConditions | src/lib/conditions.js:119-167 | the result and the new cache are the transition the lemmas above describe |
| NoaaWeather.SpeedStart | src/lib/noaaWeather.js:27 | the first character of `[0-9.]`, every earlier one not being one |
| NoaaWeather.ParseWindSpeed | src/lib/noaaWeather.js:25-35 | null for a non-string, and for a string exactly when it has no digit or point |
| NoaaWeather.ParseWindSpeedUnits | src/lib/noaaWeather.js:29-34 | the first run is converted from mph to knots when "mph" follows it, and kept otherwise |
| NoaaWeather.ParseWindSpeedRange | src/lib/noaaWeather.js:27-34 | "10 to 15 mph" is 10: only the first run counts and the unit must follow it |
| NoaaWeather.ParseWindSpeedUpperCaseUnit | src/lib/noaaWeather.js:27-32 | "12 MPH" is converted: the unit is matched ignoring case |
| NoaaWeather.MapPeriods | src/lib/noaaWeather.js:48-54 | one period per item, in order, each read field by field; a null item throws a TypeError |
| NoaaWeather.HourlyForecast | src/lib/noaaWeather.js:37-55 | request failures propagate; no hourly URL or no periods array gives []; otherwise the mapped periods |
| Poll.EmptyConditions | src/polling/poll.js:15-54 | the template has exactly the top-level keys, with the given updatedAt, stale and errors |
| Poll.EmptySectionsAreNull | src/polling/poll.js:18-50 | every section of the template is an object of its fields, all null |
| Poll.MergeResultShape | src/polling/poll.js:74-79 | the keys are unchanged; each truthy section that the result names, other than "errors", becomes the section spread with the result's value; nothing else changes |
| Poll.MergedStep | src/polling/poll.js:74-79 | merging one more entry changes at most that entry's section |
| Poll.MergeInto | src/polling/poll.js:74-79 | merging a result gives MergeResult |
| Poll.MergeEntries | src/polling/poll.js:74-79 | the loop over the entries, in any order, merges every entry |
| Poll.CollectConditions | src/polling/poll.js:56-91 | the loop over the six scrapers computes the conditions and the errors of Collect |
| Poll.ConditionsAfterKeys | src/polling/poll.js:58-87 | merging never adds or removes a top-level key |
| Poll.ErrorsAndStaleNeverMerged | src/polling/poll.js:58-89 | during the merge, errors stays [] and stale stays false |
| Poll.CollectShape | src/polling/poll.js:89-90 | the result has the template's keys, is not stale, and its errors are the collected errors |
| Poll.ErrorsInRunOrder | src/polling/poll.js:70-87 | the errors of earlier scrapers are a prefix of the errors of later ones |
| Poll.ThrowIsReported | src/polling/poll.js:84-86 | a scraper that throws adds "<name> scraper error: <message>" after the errors of the scrapers before it |
| Poll.ThrowLeavesConditions | src/polling/poll.js:70-87 | a scraper that throws changes the conditions no more than one that returns nothing |
| Poll.ThrowIsReportedAndSkipped | src/polling/poll.js:70-87 | both of the above for a complete run: reported, later scrapers still run, conditions untouched |
| Poll.Poller.CurrentConditions | src/polling/poll.js:114-116 | the current payload, or a stale empty one when there is none |
| Poll.Poller.Initialize | src/polling/poll.js:93-107 | the state and result are InitStep: keep the current payload, else load the cache, else seed and write an empty one |
| Poll.Poller.Persist | src/polling/poll.js:109-112 | the payload becomes current before the write, so a failed write leaves it current and rejects |
| Poll.Poller.Recover | src/polling/poll.js:141-152 | the failed payload: the previous one (or an empty one), stale, with "Polling failed: <message>" appended to its errors |
| Poll.Poller.PollOnce | src/polling/poll.js:118-153 | the state and result are PollStep |
| Poll.InitializeIsIdempotent | src/polling/poll.js:94 | with a current payload, initialisation returns it and changes nothing |
| Poll.ErrorsServePrevious | src/polling/poll.js:125-134 | with scraper errors the previous payload is served, stale, keeping its updatedAt, with the new errors appended to its own |
| Poll.CleanPollIsFresh | src/polling/poll.js:137-140 | without errors the new conditions are served with stale false and errors [] |
| Poll.ReturnedIsPersisted | src/polling/poll.js:109-152 | what a poll returns is the current payload and what is on disk |
| Poll.InitSetsCurrent | src/polling/poll.js:93-107 | initialisation always leaves a current payload, whether it reuses, loads or seeds one |
| Poll.RecoverStores | src/polling/poll.js:141-152 | the catch block keeps a current payload, and what it returns is current and on disk |
| Poll.FailedWriteAppendsMessage | src/polling/poll.js:141-151 | a failed write turns the poll into the recovery path with "Polling failed: <message>" |
| Poll.ConsecutiveFailuresAccumulate | src/polling/poll.js:141-151 | two failed polls append both messages, in order |
| WorldTides.PadZerosValue | src/lib/worldTides.js:15 | zero padding keeps the decimal value |
| WorldTides.FixedDigits | src/lib/worldTides.js:15 | the digits of `toFixed(f)` are the absolute value scaled by 10^f and rounded half up, with at least f + 1 digits |
| WorldTides.Fixed | src/lib/worldTides.js:14-47 | `toFixed` output holds only digits, '-' and '.' |
| WorldTides.FixedInjective | src/lib/worldTides.js:15 | equal renderings mean equal sign and equal rounded magnitude |
| WorldTides.PointAtInjective | src/lib/worldTides.js:15 | the digits can be read back from a rendering with the point inserted |
| WorldTides.SplitAtComma | src/lib/worldTides.js:15 | a comma-joined key splits back into its two halves |
| WorldTides.CacheKeyIdentifiesRounding | src/lib/worldTides.js:14-16 | two coordinate pairs share a cache key exactly when both coordinates round alike to four places |
| WorldTides.ItemsOf | src/lib/worldTides.js:48-56 | `(data.x \|\| [])`: a missing array is [], and a list that maps holds no null item |
| WorldTides.ExtremeOf | src/lib/worldTides.js:48-52 | an extreme copies type and height, and its timestamp is `dt \|\| datetime \|\| timestamp` |
| WorldTides.LevelOf | src/lib/worldTides.js:53-56 | a height copies height, and its time is `dt \|\| t` |
| WorldTides.NormalizeResponse | src/lib/worldTides.js:45-59 | fails exactly for null data or a null item; otherwise extremes and heights are mapped one to one, and the station is the data's or the coordinates to three places |
| WorldTides.MissingArraysAreEmpty | src/lib/worldTides.js:48-56 | without extremes or heights both lists are empty |
| WorldTides.TideCache.FetchExtremesAndHeights | src/lib/worldTides.js:61-111 | the result and the new cache are FetchStep |
| WorldTides.TideCache.CacheSample | src/lib/worldTides.js:71-109 | the sample is normalised, cached for six minutes and returned |
| WorldTides.FreshEntryIsReused | src/lib/worldTides.js:64-67 | an unexpired entry for the key is returned and nothing changes |
| WorldTides.OtherKeysUntouched | src/lib/worldTides.js:62-110 | a fetch touches only its own key |
| WorldTides.DecisionTouchesOnlyKey | src/lib/worldTides.js:62-110 | whichever branch is taken, every other key keeps its presence and its entry |
| WorldTides.NoApiKeyServesSample | src/lib/worldTides.js:69-74 | without an API key the sample is served and cached |
| WorldTides.SuccessIsStored | src/lib/worldTides.js:98-101 | a successful response is normalised, cached for six minutes and returned |
| WorldTides.FailureServesOldEntry | src/lib/worldTides.js:102-106 | a failure with any entry for the key, even an expired one, serves that entry |
| WorldTides.ColdFailureServesSample | src/lib/worldTides.js:107-109 | a failure with no entry serves and caches the sample |
| WorldTides.NeverRejectsWithUsableSample | src/lib/worldTides.js:61-111 | with a usable sample the call always resolves |
| SnapshotStore.Store.Load | src/lib/snapshotStore.js:7-16 | the state and result are LoadStep |
| SnapshotStore.Store.Save | src/lib/snapshotStore.js:18-25 | the state is SaveStep: memory is set whatever the write does |
| SnapshotStore.LoadPrefersMemory | src/lib/snapshotStore.js:8 | a truthy in-memory snapshot is returned, whatever the file holds |
| SnapshotStore.LoadFromFile | src/lib/snapshotStore.js:9-15 | otherwise the file is read into memory, and a missing or unreadable file gives null |
| SnapshotStore.SaveThenLoad | src/lib/snapshotStore.js:18-25 | a saved truthy snapshot is what the next load returns, even when the write failed |
| PollTides.MergedSnapshotKeeps | src/pollers/pollTides.js:8-12 | the saved snapshot keeps the existing keys and sets updatedAt and tides |
| PollTides.PollTides | src/pollers/pollTides.js:5-16 | the tide cache, the store and the result are PollTidesStep |
| PollTides.ReturnsTidesAndSavesSnapshot | src/pollers/pollTides.js:5-16 | resolves exactly when the tide fetch does; then returns the normalised tides and saves them in the snapshot |
| PollConditions.PollStation | src/pollers/pollConditions.js:11-29 | a station's record is built from both feeds, or, when either rejects, from the config alone; the tide phase is always null |
| PollConditions.FailedStationIsEmpty | src/pollers/pollConditions.js:25-28 | a failed station reports null readings |
| PollConditions.PollStations | src/pollers/pollConditions.js:32-35 | one record per station, in table order |
| PollConditions.FindStation | src/pollers/pollConditions.js:37 | the first station with the id, or none |
| PollConditions.Primary | src/pollers/pollConditions.js:37 | a primary station exists exactly when there are stations, and it is one of them |
| PollConditions.PrimaryIsChosen | src/pollers/pollConditions.js:37 | the primary is the station with the primary id, else the first |
| PollConditions.SnapshotJson | src/pollers/pollConditions.js:47-54 | the snapshot has exactly updatedAt, summary, stations and field, with the wind field under field.wind |
| PollConditions.RunPollOnce | src/pollers/pollConditions.js:31-64 | the snapshot is Assemble of the feeds, and it is saved |
| PollConditions.SnapshotFollowsTable | src/pollers/pollConditions.js:31-38 | one record per station of the table, in table order, none with a tide phase; the summary is built from the first record, the central bay station's |
| PollConditions.WindFailureStillSaves | src/pollers/pollConditions.js:39-56 | a failed wind field is null and the snapshot is still saved |
| GcoosField.FetchCsv | src/lib/gcoosField.js:18-29 | the body text, or null exactly when the request fails |
| GcoosField.SplitCount | src/lib/gcoosField.js:32-36 | `split` gives one more piece than separators |
| GcoosField.SplitJoin | src/lib/gcoosField.js:32-36 | the pieces hold no separator and join back to the text |
| GcoosField.Lines | src/lib/gcoosField.js:32 | one line per line feed, plus one |
| GcoosField.SplitAfterPiece | src/lib/gcoosField.js:36 | the first piece of `split` is the text before the first separator, and the rest is the split of what follows |
| GcoosField.RecordFields | src/lib/gcoosField.js:36-42 | a row `time,lat,lon,u,v` gives `Number` of lat, lon, u and v, in that order |
| GcoosField.RecordIgnoresTime | src/lib/gcoosField.js:36-42 | rows that differ only in the time field give the same record |
| GcoosField.ParsedRecords | src/lib/gcoosField.js:31-45 | one record per line after the header of the trimmed text |
| GcoosField.ParseCsv | src/lib/gcoosField.js:31-45 | the result is ParsedRecords of the text |
| GcoosField.ParseRows | src/lib/gcoosField.js:34-44 | the row loop returns one record per line after the header, record i read from line i + 1 |
| GcoosField.RowRecordsSnoc | src/lib/gcoosField.js:35-43 | each further line appends exactly the record read from it |
| GcoosField.TwoRowsTwoRecords | src/lib/gcoosField.js:31-45 | a header and two rows without line feeds, joined by two line feeds, hold two line feeds, so they give two records |
| GcoosField.GetWindField | src/lib/gcoosField.js:47-63 | null exactly when the fetch fails or returns ""; otherwise the parsed records with 0.25 degree steps |
| NwsClient.CacheFresh | src/services/nwsClient.js:14-16 | fresh exactly when the value is truthy and has not expired |
| NwsClient.MetaOf | src/services/nwsClient.js:42-44 | null data throws; otherwise the four URLs of `data.properties \|\| {}`, nothing else |
| NwsClient.Client.GetPointsMetadata | src/services/nwsClient.js:39-48 | the state and result are MetadataStep |
| NwsClient.Client.GetLatestObservation | src/services/nwsClient.js:50-61 | the state and result are ObservationStep |
| NwsClient.Client.GetForecast | src/services/nwsClient.js:63-71 | the state and result are ForecastStep |
| NwsClient.FreshCachesAreReused | src/services/nwsClient.js:39-71 | a fresh cache is returned and nothing changes |
| NwsClient.StoredValuesExpireAfterTheirWindow | src/services/nwsClient.js:45-69 | a newly stored value expires after 10 minutes (metadata) or 5 minutes (observation, forecast) |
| NwsClient.FailuresPropagate | src/services/nwsClient.js:39-71 | a failing call leaves its own cache unchanged; only the metadata may have been refreshed on the way |
| NwsClient.ExpiredObservationIsNotServed | src/services/nwsClient.js:50-61 | an expired observation is not served when its request fails |
| NwsClient.ToFahrenheit | src/services/nwsClient.js:73-76 | null exactly for null; 0 °C is 32 °F and 100 °C is 212 °F |
| NwsClient.ToMph | src/services/nwsClient.js:78-81 | null exactly for null |
| NwsClient.MetersToMiles | src/services/nwsClient.js:83-86 | null exactly for null |
| NwsClient.ConvertersAreIncreasing | src/services/nwsClient.js:73-86 | the three converters preserve order |
| NwsClient.ToCardinal | src/services/nwsClient.js:88-93 | null exactly for null or NaN; otherwise the sector name of the bearing taken modulo 360 |
| NwsClient.SectorName | src/services/nwsClient.js:90-92 | never null; a name is one of the sixteen points; a non-negative remainder names the point at `Math.round(m/22.5) % 16` |
| NwsClient.NearlyFullCircleIsNorth | src/services/nwsClient.js:91 | bearings from 348.75 up to 360 are "N" |
| NwsClient.FullTurnIsSamePoint | src/services/nwsClient.js:91 | adding a full turn does not change the point |
| NwsClient.WestOfNorthIsUnnamed | src/services/nwsClient.js:91-92 | `%` keeps the sign of a negative bearing, so bearings above -348.75 and below -11.25 index before the table and give undefined |
| RadarService.RadarCache.GetRadarSnapshot | src/services/radarService.js:10-17 | the result and the new cache are RadarStep |
| RadarService.AlwaysTheRadarImage | src/services/radarService.js:1-17 | every snapshot points at the radar image URL |
| RadarService.FreshSnapshotIsReused | src/services/radarService.js:6-11 | a fresh cache returns the cached snapshot itself |
| RadarService.ExpiredSnapshotIsRebuilt | src/services/radarService.js:4-16 | otherwise a snapshot stamped now is stored for five minutes and returned |
| RadarService.SecondCallWithinWindowIsCached | src/services/radarService.js:6-16 | a second call within five minutes returns the same snapshot |
| RadarService.CallAfterWindowRebuilds | src/services/radarService.js:6-16 | a call five minutes or more later builds a new one |
| Parsing.TextOrNull | src/utils/parsing.js:1-5 | null exactly for null or whitespace-only text; otherwise the trimmed text, with no edge whitespace |
| Parsing.TextOrNullIdempotent | src/utils/parsing.js:1-5 | applying it twice is applying it once |
| Parsing.Clean | src/utils/parsing.js:9 | only digits, '.' and '-' are kept |
| Parsing.CleanKeepsNumericText | src/utils/parsing.js:9 | numeric text is left as it is |
| Parsing.NumberOrNull | src/utils/parsing.js:7-11 | null for null; otherwise a number exactly when the cleaned text starts with a decimal literal |
| Parsing.NumberOrNullOfCleanText | src/utils/parsing.js:9 | cleaning first changes nothing |
| Parsing.NumberBeforeUnits | src/utils/parsing.js:7-11 | digits followed by a unit such as " kt" read as the digits' value |
| Parsing.FractionBeforeUnits | src/utils/parsing.js:7-11 | `ds.fs` followed by a unit such as "F" reads as ds + fs/10^\|fs\| (either run may be empty, as in ".5") |
| Parsing.NegativeFractionBeforeUnits | src/utils/parsing.js:7-11 | with a '-' in front the reading is the negated value |
| Text.DecimalValueBounds | src/utils/parsing.js:9 | the value of `ds.fs` lies in [ds, ds + 1) |
| Text.MantissaOfFraction | src/utils/parsing.js:9 | `parseFloat`'s mantissa `ds.fs`, followed by anything but a digit, has the value ds + fs/10^\|fs\| and spans \|ds\| + 1 + \|fs\| characters |
| Text.DecimalPrefixOfFraction | src/utils/parsing.js:9 | `ds.fs` followed by neither a digit nor an exponent is the literal read by `parseFloat`, with that value and length |
| Text.NegativeDecimalPrefixOfFraction | src/utils/parsing.js:9 | a leading '-' negates that literal and adds one to its length |
| Text.MinusNegates | src/utils/parsing.js:9 | on unsigned text, '-' in front gives no literal exactly when the text gives none, and otherwise the negated literal, one character longer |
| Parsing.NoDigitsIsNull | src/utils/parsing.js:7-11 | text without digits, points or minus signs is null |
| Parsing.ToCardinalDirection | src/utils/parsing.js:13-20 | null exactly when numberOrNull is null; otherwise the direction of the parsed bearing |
| Parsing.BearingDirection | src/utils/parsing.js:17-19 | never null; a named result is one of the eight points; a non-negative bearing always has a name |
| Parsing.SectorOfBearing | src/utils/parsing.js:17-19 | the k-th point covers 22.5 degrees either side of 45·k |
| Parsing.NearlyFullCircleIsNorth | src/utils/parsing.js:17-19 | bearings from 337.5 up to 360 wrap to "N" |
| Parsing.NegativeBearingIsUnnamed | src/utils/parsing.js:18-19 | bearings above -337.5 and below -22.5 index before the table and give undefined ("-90" is not "W") |
| LabelScan.FindFrom | index.js:12-13 | the label's leftmost occurrence, ignoring the case of ASCII letters |
| LabelScan.LabelCapture | index.js:12-13 | there is a capture exactly when the label occurs, and it holds neither a line feed nor '<' |
| LabelScan.CaptureStartSpec | index.js:12 | the capture starts after the longest text from the label's end that `\s*:?\s*` matches: whitespace with at most one ':' |
| LabelScan.CaptureAfter | index.js:12 | the capture `([^\n<]*)` is the text from the capture start up to the first line feed or '<', or to the end |
| LabelScan.LabelledLineYields | index.js:10-18 | a line "label:" + whitespace + v, ended by a line feed, a '<' or the end, yields v trimmed |
| LabelScan.YieldSpec | index.js:14-18 | a label yields exactly when it matches and its capture is not all whitespace, and then it yields the trimmed capture |
| LabelScan.ExtractTextAfterLabel | index.js:10-22 | null exactly when no label yields text; otherwise the yield of one of the labels |
| LabelScan.FirstYieldingLabelWins | index.js:11-18 | the result is the yield of the first label that yields anything |
| LabelScan.ExtractedTextIsOneCleanLine | index.js:12-16 | the text has no edge whitespace, no line feed and no '<' |
| LabelScan.LabelCaseIsIgnored | index.js:12 | labels that differ only in the case of ASCII letters yield the same text |
| LabelScan.KelvinSignIsNotK | index.js:12 | under the `i` flag without `u`, the Kelvin sign does not match 'k' or 'K', though its lower case is 'k' |
| LabelScan.FirstNumber | index.js:28-29 | there is a number exactly when the text has a digit |
| LabelScan.ExtractNumberAfterLabel | index.js:25-30 | a number exactly when some label yields text and that text has a digit |
| LabelScan.SignIsKept | index.js:28-29 | "-" directly before the digits makes the number negative |
| LabelScan.FractionIsRead | index.js:28-29 | after text without digits or '-', `ds.fs` reads as ds + fs/10^\|fs\| |
| LabelScan.NegativeFractionIsRead | index.js:28-29 | after such text, `-ds.fs` reads as the negated value |
| LabelScan.LabelledReading | index.js:25-30 | "label:" + whitespace + `ds.fs` + a unit without a leading digit, ending the line, reads as ds + fs/10^\|fs\| |
| Cheerio.NextTag | vendor/cheerio/index.js:3-6 | the leftmost `<img…>` tag from the last index on, no earlier one existing |
| Cheerio.NextAttr | vendor/cheerio/index.js:9-12 | the next attribute match ends after the last index, and its name is a non-empty run of word characters |
| Cheerio.NextAttrIsLeftmost | vendor/cheerio/index.js:9-12 | `exec` returns the match at the leftmost position at or after `lastIndex`, and null when no position has one |
| Cheerio.AttrAtText | vendor/cheerio/index.js:9 | a match is the name, '=', a quote, the captured value, and the same quote, the value holding neither that quote nor a line terminator (`.*?` stops at the first closing quote) |
| Cheerio.SingleAttr | vendor/cheerio/index.js:9-14 | a tag that is one double-quoted attribute gives exactly that value under the lower-cased name |
| Cheerio.AttributeValue | vendor/cheerio/index.js:9-14 | `name="value"` reads as `{ [name.toLowerCase()]: value }` when the value holds neither '"' nor a line terminator |
| Cheerio.ParseImages | vendor/cheerio/index.js:1-21 | the tag loop computes Images: one entry per tag, in order, with the tag's attributes |
| Cheerio.ParseAttributes | vendor/cheerio/index.js:9-15 | the attribute loop over one tag computes AttrsFrom: each attribute under its lower-case name, the later match winning |
| Cheerio.EntriesAreImgTags | vendor/cheerio/index.js:3-7 | every entry's tag is "<img" in any case, then no '>', then '>' |
| Cheerio.NoTagNoImages | vendor/cheerio/index.js:6 | with no complete tag there are no images |
| Cheerio.SingleTagDocument | vendor/cheerio/index.js:1-21 | a document that is one tag has exactly that entry |
| Cheerio.AttrsOverride | vendor/cheerio/index.js:12-15 | later attributes override earlier ones |
| Cheerio.LaterAttributeWins | vendor/cheerio/index.js:12-15 | a duplicate name keeps the last value, and the first value stays when no duplicate follows |
| Cheerio.AttrNamesAreLowerCase | vendor/cheerio/index.js:14 | attribute names are stored in lower case |
| Cheerio.First | vendor/cheerio/index.js:25-27 | at most one element: the first, if any |
| Cheerio.Attr | vendor/cheerio/index.js:28-31 | undefined on an empty wrapper; a value read is the first element's attribute of the lower-cased name |
| Cheerio.FirstKeepsAttr | vendor/cheerio/index.js:25-34 | `first()` keeps what `attr` reads, a name is looked up in any case, and the length of `first()` is 0 for an empty wrapper and 1 otherwise |
| Cheerio.SrcNeedle | vendor/cheerio/index.js:42-44 | a needle found is the whole text between `img[src*="` and `"]`, and it is not empty |
| Cheerio.SrcContaining | vendor/cheerio/index.js:45 | the kept images are images of the list whose src contains the needle, ignoring case |
| Cheerio.SrcFilterKeepsMatches | vendor/cheerio/index.js:45 | an image is kept exactly when its src contains the needle |
| Cheerio.FilterImages | vendor/cheerio/index.js:38-49 | "img", in any case and with any surrounding whitespace, selects every image |
| Cheerio.OtherSelectorsSelectNothing | vendor/cheerio/index.js:48 | any other selector selects nothing |
| Cheerio.Selectors | vendor/cheerio/index.js:55 | empty pieces are dropped: no selector kept is empty |
| Cheerio.SelectConcatenates | vendor/cheerio/index.js:54-58 | a selector list selects what its first selector selects followed by what the rest selects, duplicates kept |
| Cheerio.MissingDocumentSelectsNothing | vendor/cheerio/index.js:52 | a null document reads as "", which selects nothing |

## Left out

- I/O:
  - HTTP requests, file reads and writes, timeouts and logging are not modelled. Each
    response is an input (`Upstream`). A file write is an input that says whether it
    failed.
  - `JSON.stringify` and `JSON.parse` are not modelled: the file holds the JSON value.
- Time: the clock is read once per call. `now` (milliseconds) and `stamp` (its ISO
  rendering) are parameters, and date parsing is not modelled: prediction times arrive
  as integers or as invalid.
- Timers and concurrency are not modelled:
  - `startPolling` and `schedule` (`setInterval`);
  - the `Promise.all` fan-outs, modelled as their joint outcome;
  - interleaving of overlapping polls;
  - `publishConditionsUpdate`.
- Poll.CollectConditions: the six scrapers are not modelled. Their outcomes are inputs,
  one per scraper in the fixed order.
- PollTides.PollTides: the default coordinates (`DEFAULT_TIDE_COORDS`, src/pollers/pollTides.js:5)
  are not modelled: the caller always supplies lat and lon.
- PollTides.PollTides: `normalizeTideSnapshot` is imported from src/lib/normalize.js,
  which does not define it, so it is an uninterpreted function parameter.
- WorldTides.TideCache.CacheSample: the local sample file is not modelled, and neither is
  the sample generated from `Date.now()` and `Math.sin`. The raw sample is an input.
- WorldTides.Fixed: `toFixed` is not modelled for magnitudes of 1e21 or more (exponent
  notation) or for the binary rounding of decimal fractions: values are exact reals,
  rounded half up.
- Js.NumberOf and Text.DecimalPrefix model decimal literals only. `Infinity` and the
  hexadecimal, binary and octal forms are not modelled, and neither is overflow to an
  infinite value.
- Floating point is not modelled: arithmetic is exact on reals. `Math.round(x*10)/10`
  is stated to be within 0.05 of x, not as a binary result.
- Text.UpperChar and Text.LowerChar model A-Z and a-z plus the sharp s, the long s, the
  dotless i and the Kelvin sign. Other mappings are not modelled, including those whose
  result contains ASCII letters (U+0130, the ligatures such as "ﬁ"). Other characters are
  kept as they are, and strings index characters, not UTF-16 units.
- Conditions.NumberRuns: the values are stated for a text that starts with a number
  (Conditions.NumberRunsOfWhole, Conditions.NumberRunsOfFraction); text without digits
  before a number is skipped by the definition only.
- Parsing.NumberOrNull: the value is stated for a number, with or without a fraction or a
  '-', followed by a unit (Parsing.NumberBeforeUnits, Parsing.FractionBeforeUnits,
  Parsing.NegativeFractionBeforeUnits). Cleaned text with more points or signs, such as
  "1.2.3" or "5-3", is read by the definition of `parseFloat` only.
- LabelScan.FirstNumber: the value is stated after text without digits or '-'
  (LabelScan.SignIsKept, LabelScan.FractionIsRead, LabelScan.NegativeFractionIsRead).
- LabelScan.ExtractNumberAfterLabel: the value is stated for a single labelled line holding
  a number with a fraction (LabelScan.LabelledReading); other pages are covered by the
  definition and by LabelScan.ExtractTextAfterLabel and LabelScan.FirstNumber.
- Parsing.TextOrNull and Parsing.NumberOrNull: `String(value)` of a non-string is not
  modelled; values arrive as strings.
- NwsClient.ToCardinal: `deg % 360` on a non-number is not modelled; the bearing is a
  number or NaN.
- LabelScan.LabelAt: the `i` flag is modelled on ASCII letters only (Text.RegexFold), so
  labels holding non-ASCII letters are not modelled (the labels used hold none).
  NoaaWeather.UnitAt and Cheerio.ImgOpenAt compare with the same fold; their patterns are
  ASCII.
- LabelScan.LabelCaseIsIgnored: states case-insensitivity for ASCII letters only; two
  labels that differ in the case of a non-ASCII letter (É and é), which the `i` flag
  equates, are not covered.
- LabelScan.ExtractTextAfterLabel: a label is matched as literal text, so labels holding
  regular-expression metacharacters are not modelled (the labels used hold none).
- NwsClient.Client: the coordinates only shape request URLs and the caches are not keyed
  by them, so they are not parameters.
- Poll.MergeResultShape: keys inherited from `Object.prototype` (a result key such as
  "toString") are not modelled, and neither are accessor properties.
- Cheerio.AttrsFrom: an attribute named `__proto__` is stored like any other name.
- Cheerio.Attr: reads own attributes only. In the source, `attr("constructor")` or
  `attr("__proto__")` read members inherited from `Object.prototype`; those are not
  modelled (the only name read is "src").
- Normalize.Fixed0: `toFixed(0)` of a wind speed of 1e21 or more gives exponent notation
  in the source; that is not modelled (wind speeds are far below it).
- Conditions.Enrich: the fresh record carries `stale: false`, where the source leaves the key out; both read as not stale.
- A property that holds `undefined` is treated as absent. NaN values stored in a JSON
  snapshot are written as null.
- Error messages from the runtime (a TypeError's wording) and HTTP status texts are not
  modelled; a TypeError carries the fixed message "TypeError".
- Conditions.Enrich: `fetchWaterTemperatureF` always gives null, so the water temperature
  is not an input.
- Outside this model:
  - main.js (the front end), src/server.js and src/api/;
  - the request helpers src/lib/fetch.js and src/lib/httpClient.js, and src/cache/cache.js;
  - src/lib/noaaTides.js, whose outputs are the prediction and water-level inputs here;
  - src/services/conditionsAggregator.js and src/scrapers/radarScraper.js;
  - the constant weather, wind, moon and marine services, the wind and weather scrapers,
    and src/lib/pubsub.js;
  - src/utils/units.js;
  - `fetchLatestReadings` in index.js.
