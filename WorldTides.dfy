/** The WorldTides client of src/lib/worldTides.js: the per-coordinate cache key, the
    normalisation of an API response, and the cache with its six-minute window, its
    fallback to the previous entry on failure and to the local sample on a cold start. */
module WorldTides {
  import opened Wrappers
  import opened Js
  import Text
  import Normalize

  /** `CACHE_WINDOW_MS`. */
  const CacheWindowMs: int := 6 * 60 * 1000

  // ------------------------------------------------------------------ toFixed and the key

  /** `s` with zeros prepended up to `width` characters. */
  function PadZeros(s: string, width: nat): (r: string)
    ensures |r| >= width && |r| >= |s|
    ensures Text.AllDigits(s) ==> Text.AllDigits(r)
    decreases width - |s|
  {
    if |s| >= width then s else PadZeros("0" + s, width)
  }

  /** A leading zero does not change the value of a digit run. */
  lemma {:induction false} LeadingZeroValue(s: string)
    requires Text.AllDigits(s)
    ensures Text.AllDigits("0" + s) && Text.DigitsValue("0" + s) == Text.DigitsValue(s)
  {
    var z := "0" + s;
    assert Text.AllDigits(z) by {
      forall i | 0 <= i < |z| ensures Text.IsDigit(z[i]) {
        if i > 0 { assert z[i] == s[i - 1]; }
      }
    }
    if s == [] {
      assert Text.DigitsValue(z) == Text.DigitsValue(z[..0]) * 10 + Text.DigitValue(z[0]);
    } else {
      var front := s[..|s| - 1];
      assert z[..|z| - 1] == "0" + front;
      assert Text.AllDigits(front);
      LeadingZeroValue(front);
    }
  }

  /** Padding with zeros does not change the value. */
  lemma {:induction false} PadZerosValue(s: string, width: nat)
    requires Text.AllDigits(s)
    ensures Text.DigitsValue(PadZeros(s, width)) == Text.DigitsValue(s)
    decreases width - |s|
  {
    if |s| < width {
      LeadingZeroValue(s);
      PadZerosValue("0" + s, width);
    }
  }

  /** The integer `x.toFixed(f)` spells: |x| * 10^f rounded, ties away from zero. */
  function Scaled(x: real, f: nat): nat {
    Normalize.RoundHalfUp(Normalize.Abs(x) * Text.Pow10Real(f))
  }

  /** The digits of `x.toFixed(f)` without sign and point: at least f + 1 of them. */
  function FixedDigits(x: real, f: nat): (d: string)
    ensures |d| >= f + 1 && Text.AllDigits(d)
    ensures Text.DigitsValue(d) == Scaled(x, f)
  {
    var d := PadZeros(Text.NatToString(Scaled(x, f)), f + 1);
    PadZerosValue(Text.NatToString(Scaled(x, f)), f + 1);
    d
  }

  /** `d` with a point before its last `f` digits (no point when f is 0). */
  function PointAt(d: string, f: nat): string
    requires |d| > f
  {
    if f == 0 then d else d[..|d| - f] + "." + d[|d| - f..]
  }

  /** `x.toFixed(f)` for |x| < 1e21: a minus sign for negative x (also when the digits are
      all zero), the digits, and a point before the last f of them. */
  function Fixed(x: real, f: nat): (r: string)
    ensures forall i :: 0 <= i < |r| ==> Text.IsDigit(r[i]) || r[i] == '-' || r[i] == '.'
  {
    (if x < 0.0 then "-" else "") + PointAt(FixedDigits(x, f), f)
  }

  /** The sign and the scaled integer can be read back from `x.toFixed(f)`. */
  lemma FixedInjective(x: real, y: real, f: nat)
    requires Fixed(x, f) == Fixed(y, f)
    ensures (x < 0.0 <==> y < 0.0) && Scaled(x, f) == Scaled(y, f)
  {
    var dx, dy := FixedDigits(x, f), FixedDigits(y, f);
    var px, py := PointAt(dx, f), PointAt(dy, f);
    var sx: string := if x < 0.0 then "-" else "";
    var sy: string := if y < 0.0 then "-" else "";
    assert Text.IsDigit(px[0]) && Text.IsDigit(py[0]);
    SignThenDigit(sx, px, sy, py);
    PointAtInjective(dx, dy, f);
  }

  /** An optional minus sign followed by text that starts with a digit splits one way. */
  lemma SignThenDigit(sx: string, px: string, sy: string, py: string)
    requires sx in {"", "-"} && sy in {"", "-"}
    requires px != [] && Text.IsDigit(px[0]) && py != [] && Text.IsDigit(py[0])
    requires sx + px == sy + py
    ensures sx == sy && px == py
  {
    assert (sx + px)[0] == (sy + py)[0];
    assert px == (sx + px)[|sx|..];
    assert py == (sy + py)[|sy|..];
  }

  /** Digits with a point inserted at the same place from the end can be read back. */
  lemma PointAtInjective(dx: string, dy: string, f: nat)
    requires |dx| > f && |dy| > f && PointAt(dx, f) == PointAt(dy, f)
    ensures dx == dy
  {
    if f > 0 {
      var p := PointAt(dx, f);
      assert |dx| == |dy|;
      assert dx == p[..|dx| - f] + p[|dx| - f + 1..];
      assert dy == p[..|dy| - f] + p[|dy| - f + 1..];
    }
  }

  /** `cacheKey(lat, lon)`. */
  function CacheKey(lat: real, lon: real): string {
    Fixed(lat, 4) + "," + Fixed(lon, 4)
  }

  /** The index of the first comma of `s`, or |s| when there is none. */
  function FirstComma(s: string): (k: nat)
    ensures k <= |s|
  {
    if s == [] || s[0] == ',' then 0 else 1 + FirstComma(s[1..])
  }

  /** The first comma of `a + "," + b` is the joining one when `a` has none. */
  lemma {:induction false} FirstCommaOfJoin(a: string, b: string)
    requires ',' !in a
    ensures FirstComma(a + "," + b) == |a|
  {
    if a != [] {
      assert (a + "," + b)[1..] == a[1..] + "," + b;
      assert a[0] != ',';
      FirstCommaOfJoin(a[1..], b);
    }
  }

  /** Two strings without commas are recovered from their comma-joined form. */
  lemma SplitAtComma(a: string, b: string, c: string, d: string)
    requires ',' !in a && ',' !in c && a + "," + b == c + "," + d
    ensures a == c && b == d
  {
    var s := a + "," + b;
    FirstCommaOfJoin(a, b);
    FirstCommaOfJoin(c, d);
    assert a == s[..|a|] && c == (c + "," + d)[..|c|];
    assert b == s[|a| + 1..] && d == (c + "," + d)[|c| + 1..];
  }

  /** Two coordinate pairs share a cache entry exactly when both coordinates have the
      same sign and the same value rounded to four decimals. */
  lemma CacheKeyIdentifiesRounding(a: real, b: real, c: real, d: real)
    ensures CacheKey(a, b) == CacheKey(c, d) <==>
      ((a < 0.0 <==> c < 0.0) && Scaled(a, 4) == Scaled(c, 4)
       && (b < 0.0 <==> d < 0.0) && Scaled(b, 4) == Scaled(d, 4))
  {
    if CacheKey(a, b) == CacheKey(c, d) {
      assert forall i :: 0 <= i < |Fixed(a, 4)| ==> Fixed(a, 4)[i] != ',';
      assert forall i :: 0 <= i < |Fixed(c, 4)| ==> Fixed(c, 4)[i] != ',';
      SplitAtComma(Fixed(a, 4), Fixed(b, 4), Fixed(c, 4), Fixed(d, 4));
      FixedInjective(a, c, 4);
      FixedInjective(b, d, 4);
    }
  }

  // ------------------------------------------------------------------ normalisation

  /** One normalised extreme: `{type, height, timestamp}`; an `undefined` field is None. */
  datatype Extreme = Extreme(kind: Option<Json>, height: Option<Json>, timestamp: Option<Json>)

  /** One normalised height sample: `{dt, height}`. */
  datatype Level = Level(dt: Option<Json>, height: Option<Json>)

  /** The normalised response. */
  datatype TideData = TideData(station: Json, extremes: seq<Extreme>, heights: seq<Level>, updatedAt: string)

  /** The elements `(data[key] || []).map(...)` runs over: None when the value is not an
      array, or when an element is null (reading a property of it throws). */
  function ItemsOf(data: Json, key: string): (r: Option<seq<Json>>)
    ensures r.Some? ==> forall i :: 0 <= i < |r.value| ==> r.value[i] != JNull
    ensures !Present(Get(data, key)) ==> r == Some([])
  {
    var v := Or(Get(data, key), Some(JArr([]))).value;
    if v.JArr? && forall i :: 0 <= i < |v.items| ==> v.items[i] != JNull then Some(v.items) else None
  }

  /** One extreme: its timestamp is `dt || datetime || timestamp`. */
  function ExtremeOf(item: Json): (r: Extreme)
    ensures Present(Get(item, "dt")) ==> r.timestamp == Get(item, "dt")
    ensures !Present(Get(item, "dt")) && Present(Get(item, "datetime")) ==> r.timestamp == Get(item, "datetime")
    ensures !Present(Get(item, "dt")) && !Present(Get(item, "datetime")) ==> r.timestamp == Get(item, "timestamp")
    ensures r.kind == Get(item, "type") && r.height == Get(item, "height")
  {
    Extreme(Get(item, "type"), Get(item, "height"), Or(Or(Get(item, "dt"), Get(item, "datetime")), Get(item, "timestamp")))
  }

  /** One height sample: its time is `dt || t`. */
  function LevelOf(item: Json): (r: Level)
    ensures Present(Get(item, "dt")) ==> r.dt == Get(item, "dt")
    ensures !Present(Get(item, "dt")) ==> r.dt == Get(item, "t")
    ensures r.height == Get(item, "height")
  {
    Level(Or(Get(item, "dt"), Get(item, "t")), Get(item, "height"))
  }

  /** `normalizeResponse(data, lat, lon)`: None when it throws (null data, a non-array
      `extremes` or `heights`, or a null element in one of them). `stamp` is the clock. */
  function NormalizeResponse(data: Json, lat: real, lon: real, stamp: string): (r: Option<TideData>)
    ensures r.None? <==> data == JNull || ItemsOf(data, "extremes").None? || ItemsOf(data, "heights").None?
    ensures r.Some? ==> (|r.value.extremes| == |ItemsOf(data, "extremes").value|
      && forall i :: 0 <= i < |r.value.extremes| ==> r.value.extremes[i] == ExtremeOf(ItemsOf(data, "extremes").value[i]))
    ensures r.Some? ==> (|r.value.heights| == |ItemsOf(data, "heights").value|
      && forall i :: 0 <= i < |r.value.heights| ==> r.value.heights[i] == LevelOf(ItemsOf(data, "heights").value[i]))
    ensures r.Some? && Present(Get(data, "station")) ==> r.value.station == Get(data, "station").value
    ensures r.Some? && !Present(Get(data, "station")) ==>
      r.value.station == JStr(Fixed(lat, 3) + ", " + Fixed(lon, 3))
    ensures r.Some? ==> r.value.updatedAt == stamp
  {
    if data == JNull then None
    else
      var station := Or(Get(data, "station"), Some(JStr(Fixed(lat, 3) + ", " + Fixed(lon, 3)))).value;
      var extremes := ItemsOf(data, "extremes");
      var heights := ItemsOf(data, "heights");
      if extremes.None? || heights.None? then None
      else
        Some(TideData(
          station,
          seq(|extremes.value|, i requires 0 <= i < |extremes.value| => ExtremeOf(extremes.value[i])),
          seq(|heights.value|, i requires 0 <= i < |heights.value| => LevelOf(heights.value[i])),
          stamp))
  }

  /** A response without `extremes` and `heights` normalises to empty lists. */
  lemma MissingArraysAreEmpty(data: Json, lat: real, lon: real, stamp: string)
    requires data != JNull && !Present(Get(data, "extremes")) && !Present(Get(data, "heights"))
    ensures var r := NormalizeResponse(data, lat, lon, stamp);
      r.Some? && r.value.extremes == [] && r.value.heights == []
  {
  }

  // ------------------------------------------------------------------ the cache

  /** A cache entry. */
  datatype Entry = Entry(data: TideData, expiresAt: int)

  /** Caching the normalised sample: rejects when the sample cannot be normalised. */
  function SampleStep(cache: map<string, Entry>, key: string, lat: real, lon: real, now: int,
                      stamp: string, rawSample: Json): (Outcome<TideData>, map<string, Entry>)
  {
    SampleOutcome(cache, key, now, NormalizeResponse(rawSample, lat, lon, stamp))
  }

  /** Caching a normalised sample, or rejecting when there is none. */
  function SampleOutcome(cache: map<string, Entry>, key: string, now: int, sample: Option<TideData>)
    : (Outcome<TideData>, map<string, Entry>)
  {
    match sample
    case None => (Rejected(TypeErrorMessage), cache)
    case Some(data) => (Resolved(data), cache[key := Entry(data, now + CacheWindowMs)])
  }

  /** `fetchExtremesAndHeights(lat, lon)` at time `now`: `apiKey` is the environment's key,
      `upstream` the response body or the failure of the request, `rawSample` the local
      sample document. */
  function FetchStep(cache: map<string, Entry>, lat: real, lon: real, now: int, stamp: string,
                     apiKey: Option<string>, upstream: Upstream<Json>, rawSample: Json)
    : (Outcome<TideData>, map<string, Entry>)
  {
    var fetched := if upstream.Ok? then NormalizeResponse(upstream.value, lat, lon, stamp) else None;
    CacheDecision(cache, CacheKey(lat, lon), now, apiKey, fetched, NormalizeResponse(rawSample, lat, lon, stamp))
  }

  /** The choices of `fetchExtremesAndHeights` once the upstream body (`fetched`) and the
      sample (`sample`) are normalised: a fresh entry, then the sample without a key, then
      the fetched data, then the old entry, then the sample. */
  function CacheDecision(cache: map<string, Entry>, key: string, now: int, apiKey: Option<string>,
                         fetched: Option<TideData>, sample: Option<TideData>)
    : (Outcome<TideData>, map<string, Entry>)
  {
    if key in cache && cache[key].expiresAt > now then (Resolved(cache[key].data), cache)
    else if apiKey.None? || apiKey.value == "" then SampleOutcome(cache, key, now, sample)
    else if fetched.Some? then (Resolved(fetched.value), cache[key := Entry(fetched.value, now + CacheWindowMs)])
    else if key in cache then (Resolved(cache[key].data), cache)
    else SampleOutcome(cache, key, now, sample)
  }

  class TideCache {
    var cache: map<string, Entry>

    constructor()
      ensures cache == map[]
    {
      cache := map[];
    }

    /** `fetchExtremesAndHeights`. */
    method FetchExtremesAndHeights(lat: real, lon: real, now: int, stamp: string,
                                   apiKey: Option<string>, upstream: Upstream<Json>, rawSample: Json)
      returns (r: Outcome<TideData>)
      modifies this
      ensures (r, cache) == FetchStep(old(cache), lat, lon, now, stamp, apiKey, upstream, rawSample)
    {
      var key := CacheKey(lat, lon);
      if key in cache && cache[key].expiresAt > now {
        return Resolved(cache[key].data);
      }
      if apiKey.None? || apiKey.value == "" {
        r := CacheSample(key, lat, lon, now, stamp, rawSample);
        return;
      }
      if upstream.Ok? {
        var normalized := NormalizeResponse(upstream.value, lat, lon, stamp);
        if normalized.Some? {
          cache := cache[key := Entry(normalized.value, now + CacheWindowMs)];
          return Resolved(normalized.value);
        }
      }
      if key in cache {
        return Resolved(cache[key].data);
      }
      r := CacheSample(key, lat, lon, now, stamp, rawSample);
    }

    /** Normalises the sample and stores it under `key`. */
    method CacheSample(key: string, lat: real, lon: real, now: int, stamp: string, rawSample: Json)
      returns (r: Outcome<TideData>)
      modifies this
      ensures (r, cache) == SampleStep(old(cache), key, lat, lon, now, stamp, rawSample)
    {
      var sample := NormalizeResponse(rawSample, lat, lon, stamp);
      if sample.None? {
        return Rejected(TypeErrorMessage);
      }
      cache := cache[key := Entry(sample.value, now + CacheWindowMs)];
      r := Resolved(sample.value);
    }
  }

  // ------------------------------------------------------------------ properties of the cache

  /** A fresh entry for the key is returned and nothing is stored. */
  lemma FreshEntryIsReused(cache: map<string, Entry>, lat: real, lon: real, now: int, stamp: string,
                           apiKey: Option<string>, upstream: Upstream<Json>, rawSample: Json)
    requires CacheKey(lat, lon) in cache && cache[CacheKey(lat, lon)].expiresAt > now
    ensures FetchStep(cache, lat, lon, now, stamp, apiKey, upstream, rawSample)
      == (Resolved(cache[CacheKey(lat, lon)].data), cache)
  {
  }

  /** A call touches only the entry of its own key. */
  lemma OtherKeysUntouched(cache: map<string, Entry>, lat: real, lon: real, now: int, stamp: string,
                           apiKey: Option<string>, upstream: Upstream<Json>, rawSample: Json, other: string)
    requires other != CacheKey(lat, lon)
    ensures var c := FetchStep(cache, lat, lon, now, stamp, apiKey, upstream, rawSample).1;
      (other in c <==> other in cache) && (other in cache ==> c[other] == cache[other])
  {
    var fetched := if upstream.Ok? then NormalizeResponse(upstream.value, lat, lon, stamp) else None;
    DecisionTouchesOnlyKey(cache, CacheKey(lat, lon), now, apiKey, fetched,
      NormalizeResponse(rawSample, lat, lon, stamp), other);
  }

  /** The cache decision leaves every other key as it was. */
  lemma DecisionTouchesOnlyKey(cache: map<string, Entry>, key: string, now: int, apiKey: Option<string>,
                               fetched: Option<TideData>, sample: Option<TideData>, other: string)
    requires other != key
    ensures var c := CacheDecision(cache, key, now, apiKey, fetched, sample).1;
      (other in c <==> other in cache) && (other in cache ==> c[other] == cache[other])
  {
  }

  /** Without an API key, the normalised sample is stored for six minutes and returned. */
  lemma NoApiKeyServesSample(cache: map<string, Entry>, lat: real, lon: real, now: int, stamp: string,
                             upstream: Upstream<Json>, rawSample: Json)
    requires !(CacheKey(lat, lon) in cache && cache[CacheKey(lat, lon)].expiresAt > now)
    requires NormalizeResponse(rawSample, lat, lon, stamp).Some?
    ensures var sample := NormalizeResponse(rawSample, lat, lon, stamp).value;
      FetchStep(cache, lat, lon, now, stamp, None, upstream, rawSample)
        == (Resolved(sample), cache[CacheKey(lat, lon) := Entry(sample, now + CacheWindowMs)])
  {
  }

  /** A successful fetch is stored for six minutes and returned. */
  lemma SuccessIsStored(cache: map<string, Entry>, lat: real, lon: real, now: int, stamp: string,
                        apiKey: string, body: Json, rawSample: Json)
    requires !(CacheKey(lat, lon) in cache && cache[CacheKey(lat, lon)].expiresAt > now)
    requires apiKey != "" && NormalizeResponse(body, lat, lon, stamp).Some?
    ensures var n := NormalizeResponse(body, lat, lon, stamp).value;
      FetchStep(cache, lat, lon, now, stamp, Some(apiKey), Ok(body), rawSample)
        == (Resolved(n), cache[CacheKey(lat, lon) := Entry(n, now + CacheWindowMs)])
  {
  }

  /** A failed fetch with an entry for the key, however old, returns that entry's data and
      leaves the cache as it was. */
  lemma FailureServesOldEntry(cache: map<string, Entry>, lat: real, lon: real, now: int, stamp: string,
                              apiKey: string, message: string, rawSample: Json)
    requires CacheKey(lat, lon) in cache && apiKey != ""
    ensures FetchStep(cache, lat, lon, now, stamp, Some(apiKey), Failed(message), rawSample)
      == (Resolved(cache[CacheKey(lat, lon)].data), cache)
  {
  }

  /** A failed fetch without an entry stores and returns the sample; the call resolves
      whenever the sample can be normalised, whatever the upstream did. */
  lemma ColdFailureServesSample(cache: map<string, Entry>, lat: real, lon: real, now: int, stamp: string,
                                apiKey: string, message: string, rawSample: Json)
    requires CacheKey(lat, lon) !in cache && apiKey != ""
    ensures FetchStep(cache, lat, lon, now, stamp, Some(apiKey), Failed(message), rawSample)
      == SampleStep(cache, CacheKey(lat, lon), lat, lon, now, stamp, rawSample)
  {
  }

  /** Whatever the upstream does, the call resolves when the sample normalises. */
  lemma NeverRejectsWithUsableSample(cache: map<string, Entry>, lat: real, lon: real, now: int, stamp: string,
                                     apiKey: Option<string>, upstream: Upstream<Json>, rawSample: Json)
    requires NormalizeResponse(rawSample, lat, lon, stamp).Some?
    ensures FetchStep(cache, lat, lon, now, stamp, apiKey, upstream, rawSample).0.Resolved?
  {
  }
}
