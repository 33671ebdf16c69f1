/** The tide poller of src/pollers/pollTides.js: fetch (through the WorldTides cache),
    normalise with the external `normalizeTideSnapshot`, and merge the result into the
    stored snapshot under `tides`. */
module PollTides {
  import opened Wrappers
  import opened Js
  import WorldTides
  import SnapshotStore

  /** `{ ...existing, updatedAt, tides }` with `existing` replaced by `{}` when falsy. */
  function MergedSnapshot(existing: Json, stamp: string, tides: Json): (r: Json)
    ensures r.JObj?
  {
    var base := if Truthy(existing) then existing else JObj(map[]);
    JObj(Spread(base)["updatedAt" := JStr(stamp)]["tides" := tides])
  }

  /** The saved snapshot keeps every other key of the existing one, and `tides` is the new
      value; with no existing snapshot it has exactly `updatedAt` and `tides`. */
  lemma MergedSnapshotKeeps(existing: Json, stamp: string, tides: Json)
    ensures var r := MergedSnapshot(existing, stamp, tides).fields;
      r["tides"] == tides && r["updatedAt"] == JStr(stamp)
      && (Truthy(existing) ==> r.Keys == Spread(existing).Keys + {"updatedAt", "tides"})
      && (Truthy(existing) ==> forall k :: k in Spread(existing) && k != "updatedAt" && k != "tides" ==>
            r[k] == Spread(existing)[k])
      && (!Truthy(existing) ==> r.Keys == {"updatedAt", "tides"})
  {
  }

  /** `pollTides(lat, lon)`: rejects when the fetch rejects, before touching the store;
      otherwise resolves to the normalised tides, after saving the merged snapshot. */
  function PollTidesStep(cache: map<string, WorldTides.Entry>, slot: SnapshotStore.Slot,
                         lat: real, lon: real, now: int, stamp: string,
                         apiKey: Option<string>, upstream: Upstream<Json>, rawSample: Json,
                         normalizeTideSnapshot: WorldTides.TideData -> Json, write: Option<string>)
    : (Outcome<Json>, map<string, WorldTides.Entry>, SnapshotStore.Slot)
  {
    var (raw, cache1) := WorldTides.FetchStep(cache, lat, lon, now, stamp, apiKey, upstream, rawSample);
    if raw.Rejected? then (Rejected(raw.message), cache1, slot)
    else
      var normalized := normalizeTideSnapshot(raw.value);
      var (existing, slot1) := SnapshotStore.LoadStep(slot);
      var snapshot := MergedSnapshot(existing, stamp, normalized);
      (Resolved(normalized), cache1, SnapshotStore.SaveStep(slot1, snapshot, write))
  }

  /** `pollTides`, over the tide cache and the snapshot store. */
  method PollTides(tides: WorldTides.TideCache, store: SnapshotStore.Store,
                   lat: real, lon: real, now: int, stamp: string,
                   apiKey: Option<string>, upstream: Upstream<Json>, rawSample: Json,
                   normalizeTideSnapshot: WorldTides.TideData -> Json, write: Option<string>)
    returns (r: Outcome<Json>)
    modifies tides, store
    ensures (r, tides.cache, SnapshotStore.Slot(store.memory, store.file))
      == PollTidesStep(old(tides.cache), old(SnapshotStore.Slot(store.memory, store.file)),
                       lat, lon, now, stamp, apiKey, upstream, rawSample, normalizeTideSnapshot, write)
  {
    var raw := tides.FetchExtremesAndHeights(lat, lon, now, stamp, apiKey, upstream, rawSample);
    if raw.Rejected? {
      return Rejected(raw.message);
    }
    var normalized := normalizeTideSnapshot(raw.value);
    var existing := store.Load();
    var snapshot := MergedSnapshot(existing, stamp, normalized);
    store.Save(snapshot, write);
    r := Resolved(normalized);
  }

  /** A poll that resolves returns the normalised tides, not the snapshot, and the store
      then holds exactly the snapshot built from what it held before. */
  lemma ReturnsTidesAndSavesSnapshot(cache: map<string, WorldTides.Entry>, slot: SnapshotStore.Slot,
                                     lat: real, lon: real, now: int, stamp: string,
                                     apiKey: Option<string>, upstream: Upstream<Json>, rawSample: Json,
                                     normalizeTideSnapshot: WorldTides.TideData -> Json, write: Option<string>)
    ensures var (r, _, slot1) := PollTidesStep(cache, slot, lat, lon, now, stamp, apiKey, upstream,
                                               rawSample, normalizeTideSnapshot, write);
      var raw := WorldTides.FetchStep(cache, lat, lon, now, stamp, apiKey, upstream, rawSample).0;
      (r.Resolved? <==> raw.Resolved?)
      && (r.Resolved? ==>
            r.value == normalizeTideSnapshot(raw.value)
            && slot1.memory == MergedSnapshot(SnapshotStore.LoadStep(slot).0, stamp, r.value)
            && slot1.memory.fields["tides"] == r.value)
  {
  }
}
