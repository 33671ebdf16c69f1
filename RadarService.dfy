/** The radar service of src/services/radarService.js: a single cached snapshot pointing at
    a fixed radar image, rebuilt every five minutes. The clock is an input: `now` is
    `Date.now()` in milliseconds and `stamp` the ISO rendering of the same instant. */
module RadarService {
  import opened Wrappers

  /** `{ imageUrl, updatedAt }`. */
  datatype RadarSnapshot = RadarSnapshot(imageUrl: string, updatedAt: string)

  /** The module-level cache: `value` is None while it holds null. */
  datatype Slot = Slot(value: Option<RadarSnapshot>, expiresAt: int)

  const RadarImageUrl: string := "https://radar.weather.gov/ridge/lite/N0R/MOB_0.gif"
  const CacheTtlMs: int := 5 * 60 * 1000

  /** `cacheFresh()`: a snapshot object is always truthy, so only its presence and the
      expiry count. */
  predicate CacheFresh(s: Slot, now: int) {
    s.value.Some? && s.expiresAt > now
  }

  /** `getRadarSnapshot()` as a step on the cache. */
  function RadarStep(s: Slot, now: int, stamp: string): (RadarSnapshot, Slot) {
    if CacheFresh(s, now) then (s.value.value, s)
    else
      var result := RadarSnapshot(RadarImageUrl, stamp);
      (result, Slot(Some(result), now + CacheTtlMs))
  }

  class RadarCache {
    var value: Option<RadarSnapshot>
    var expiresAt: int

    constructor()
      ensures value == None && expiresAt == 0
    {
      value := None;
      expiresAt := 0;
    }

    /** `getRadarSnapshot`. */
    method GetRadarSnapshot(now: int, stamp: string) returns (r: RadarSnapshot)
      modifies this
      ensures (r, Slot(value, expiresAt)) == RadarStep(old(Slot(value, expiresAt)), now, stamp)
    {
      if value.Some? && expiresAt > now {
        return value.value;
      }
      r := RadarSnapshot(RadarImageUrl, stamp);
      value := Some(r);
      expiresAt := now + CacheTtlMs;
    }
  }

  /** The cache keeps every snapshot it ever holds pointing at the radar image. */
  predicate Valid(s: Slot) {
    s.value.Some? ==> s.value.value.imageUrl == RadarImageUrl
  }

  /** Every call returns a snapshot of the radar image, and keeps the cache valid. */
  lemma AlwaysTheRadarImage(s: Slot, now: int, stamp: string)
    requires Valid(s)
    ensures RadarStep(s, now, stamp).0.imageUrl == RadarImageUrl
    ensures Valid(RadarStep(s, now, stamp).1)
  {
  }

  /** While the cache is fresh, the cached snapshot itself is returned and nothing changes. */
  lemma FreshSnapshotIsReused(s: Slot, now: int, stamp: string)
    requires CacheFresh(s, now)
    ensures RadarStep(s, now, stamp) == (s.value.value, s)
  {
  }

  /** Otherwise a snapshot stamped now is stored for five minutes and returned. */
  lemma ExpiredSnapshotIsRebuilt(s: Slot, now: int, stamp: string)
    requires !CacheFresh(s, now)
    ensures var (r, s1) := RadarStep(s, now, stamp);
      r == RadarSnapshot(RadarImageUrl, stamp) && s1 == Slot(Some(r), now + 5 * 60 * 1000)
  {
  }

  /** Two calls within five minutes of a rebuild return the same snapshot. */
  lemma SecondCallWithinWindowIsCached(s: Slot, now: int, later: int, stamp: string, stamp2: string)
    requires !CacheFresh(s, now)
    requires now <= later < now + CacheTtlMs
    ensures var (r, s1) := RadarStep(s, now, stamp);
      RadarStep(s1, later, stamp2) == (r, s1)
  {
  }

  /** Five minutes or more after a rebuild the next call rebuilds. */
  lemma CallAfterWindowRebuilds(s: Slot, now: int, later: int, stamp: string, stamp2: string)
    requires !CacheFresh(s, now)
    requires later >= now + CacheTtlMs
    ensures var (_, s1) := RadarStep(s, now, stamp);
      RadarStep(s1, later, stamp2).0 == RadarSnapshot(RadarImageUrl, stamp2)
  {
  }
}
