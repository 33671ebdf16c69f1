/** The judgement functions of src/lib/normalize.js: the tide trend of a prediction series,
    the water-level rating, the one-line summary text, and the station and summary records. */
module Normalize {
  import opened Wrappers
  import opened Js
  import Text
  import NoaaWeather

  // ---------------------------------------------------------------- tide phase

  datatype TidePhase = Rising | Falling | Slack

  function PhaseName(p: TidePhase): (r: string)
    ensures r != [] && forall i :: 0 <= i < |r| ==> 'a' <= r[i] <= 'z'
  {
    match p
    case Rising => "rising"
    case Falling => "falling"
    case Slack => "slack"
  }

  /** A tide prediction: the time (None when `new Date(time)` is invalid) and the height
      (None is null, which subtracts as 0). */
  datatype Prediction = Prediction(time: Option<int>, heightFt: Option<Num>)

  /** A prediction whose time parsed, with that time in milliseconds. */
  datatype TimedPoint = TimedPoint(date: int, heightFt: Option<Num>)

  /** The `map` to dated points followed by the `filter` that drops invalid dates. */
  function Dated(ps: seq<Prediction>): (r: seq<TimedPoint>)
    ensures |r| <= |ps|
    ensures r == [] <==> forall i :: 0 <= i < |ps| ==> ps[i].time.None?
  {
    if ps == [] then []
    else
      var rest := Dated(ps[1..]);
      assert forall i :: 1 <= i < |ps| ==> ps[i] == ps[1..][i - 1];
      if ps[0].time.Some? then [TimedPoint(ps[0].time.value, ps[0].heightFt)] + rest else rest
  }

  predicate SortedByDate(s: seq<TimedPoint>) {
    forall i, j :: 0 <= i < j < |s| ==> s[i].date <= s[j].date
  }

  /** Puts x in front of the first element whose date is not earlier than its own. */
  function Insert(x: TimedPoint, s: seq<TimedPoint>): (r: seq<TimedPoint>)
    requires SortedByDate(s)
    ensures SortedByDate(r)
    ensures multiset(r) == multiset(s) + multiset{x}
    ensures |r| == |s| + 1
  {
    if s == [] || x.date <= s[0].date then [x] + s
    else
      var rest := Insert(x, s[1..]);
      InsertBehind(x, s, rest);
      [s[0]] + rest
  }

  /** A point that goes behind the head of a sorted list: the head stays in front of the
      insertion into the tail. */
  lemma InsertBehind(x: TimedPoint, s: seq<TimedPoint>, rest: seq<TimedPoint>)
    requires s != [] && s[0].date < x.date && SortedByDate(s)
    requires SortedByDate(rest) && multiset(rest) == multiset(s[1..]) + multiset{x}
    ensures SortedByDate([s[0]] + rest)
    ensures multiset([s[0]] + rest) == multiset(s) + multiset{x}
  {
    assert multiset(s) == multiset{s[0]} + multiset(s[1..]) by { assert s == [s[0]] + s[1..]; }
    forall i | 0 <= i < |rest| ensures s[0].date <= rest[i].date {
      assert rest[i] in multiset(rest);
      if rest[i] != x {
        assert rest[i] in multiset(s[1..]);
        var j :| 0 <= j < |s[1..]| && s[1..][j] == rest[i];
        assert s[1 + j] == rest[i];
      }
    }
  }

  /** The stable `sort((a, b) => a.date - b.date)`: points with equal dates keep their order. */
  function SortByDate(s: seq<TimedPoint>): (r: seq<TimedPoint>)
    ensures SortedByDate(r)
    ensures multiset(r) == multiset(s) && |r| == |s|
  {
    if s == [] then []
    else
      assert s == [s[0]] + s[1..];
      Insert(s[0], SortByDate(s[1..]))
  }

  /** The points of `s` dated d, in order. */
  function AtDate(s: seq<TimedPoint>, d: int): seq<TimedPoint> {
    if s == [] then [] else (if s[0].date == d then [s[0]] else []) + AtDate(s[1..], d)
  }

  lemma {:induction false} InsertAtDate(x: TimedPoint, s: seq<TimedPoint>, d: int)
    requires SortedByDate(s)
    ensures AtDate(Insert(x, s), d) == (if x.date == d then [x] else []) + AtDate(s, d)
  {
    if s == [] || x.date <= s[0].date {
      assert ([x] + s)[1..] == s;
    } else {
      InsertAtDate(x, s[1..], d);
      var r := Insert(x, s);
      assert r[0] == s[0] && r[1..] == Insert(x, s[1..]);
      if x.date == d {
        AtDateEmptyBelow(s[1..][..0], d);
        assert s[0].date != d;
      }
    }
  }

  /** Trivial helper: the empty sequence has no point at any date. */
  lemma AtDateEmptyBelow(s: seq<TimedPoint>, d: int)
    requires s == []
    ensures AtDate(s, d) == []
  {}

  /** The sort is stable: the points that share a date come out in their input order. */
  lemma {:induction false} SortByDateStable(s: seq<TimedPoint>, d: int)
    ensures AtDate(SortByDate(s), d) == AtDate(s, d)
  {
    if s != [] {
      SortByDateStable(s[1..], d);
      InsertAtDate(s[0], SortByDate(s[1..]), d);
    }
  }

  /** The `find` of the first point dated strictly after now (|s| when there is none). */
  function FirstAfter(s: seq<TimedPoint>, now: int): (i: nat)
    ensures i <= |s|
    ensures forall k :: 0 <= k < i ==> s[k].date <= now
    ensures i < |s| ==> s[i].date > now
  {
    if s == [] then 0
    else if s[0].date > now then 0
    else 1 + FirstAfter(s[1..], now)
  }

  /** The index of `current`: the first point after now, else the last point. */
  function CurrentIndex(s: seq<TimedPoint>, now: int): nat
    requires s != []
  {
    var i := FirstAfter(s, now);
    if i < |s| then i else |s| - 1
  }

  /** `current` is the earliest point strictly after now in ascending date order, and the
      last point when no point lies after now. */
  lemma CurrentIsFirstAfterNow(s: seq<TimedPoint>, now: int)
    requires s != [] && SortedByDate(s)
    ensures var c := CurrentIndex(s, now);
      && c < |s|
      && ((exists k :: 0 <= k < |s| && s[k].date > now) ==>
            s[c].date > now && forall k :: 0 <= k < |s| && s[k].date > now ==> s[c].date <= s[k].date)
      && ((forall k :: 0 <= k < |s| ==> s[k].date <= now) ==> c == |s| - 1)
  {}

  /** A height as an operand of `-`: null is 0. */
  function HeightNum(h: Option<Num>): Num {
    if h.Some? then h.value else N(0.0)
  }

  function Minus(a: Num, b: Num): (r: Num)
    ensures r.N? <==> a.N? && b.N?
  {
    if a.N? && b.N? then N(a.v - b.v) else NaN
  }

  function Abs(x: real): real { if x < 0.0 then -x else x }

  /** The trend of a height change: slack under 0.05 ft either way, then rising or falling by
      sign; a NaN change compares false everywhere and so is falling. */
  function Classify(delta: Num): (r: TidePhase)
    ensures r == Slack <==> delta.N? && -0.05 < delta.v < 0.05
    ensures r == Rising <==> delta.N? && delta.v >= 0.05
    ensures r == Falling <==> delta.NaN? || delta.v <= -0.05
  {
    match delta
    case NaN => Falling
    case N(d) => if Abs(d) < 0.05 then Slack else if d > 0.0 then Rising else Falling
  }

  /** `computeTidePhaseFromSeries`: null for no predictions or no valid time; otherwise the
      trend between `current` and the point before it (itself when it is the first). */
  function TidePhaseFromSeries(predictions: seq<Prediction>, now: int): (r: Option<TidePhase>)
    ensures r.None? <==> forall i :: 0 <= i < |predictions| ==> predictions[i].time.None?
  {
    if |predictions| == 0 then None
    else
      var times := SortByDate(Dated(predictions));
      if times == [] then None
      else
        var c := CurrentIndex(times, now);
        var p := if c - 1 > 0 then c - 1 else 0;
        Some(Classify(Minus(HeightNum(times[c].heightFt), HeightNum(times[p].heightFt))))
  }

  /** The points the series is judged on: the dated predictions in ascending date order. */
  function Timeline(predictions: seq<Prediction>): (r: seq<TimedPoint>)
    ensures SortedByDate(r) && multiset(r) == multiset(Dated(predictions))
  {
    SortByDate(Dated(predictions))
  }

  /** The result is the trend from the point before `current` to `current`. */
  lemma TidePhaseIsTrend(predictions: seq<Prediction>, now: int)
    requires Timeline(predictions) != []
    ensures var s := Timeline(predictions);
      var c := CurrentIndex(s, now);
      TidePhaseFromSeries(predictions, now)
        == Some(Classify(Minus(HeightNum(s[c].heightFt), HeightNum(s[if c == 0 then 0 else c - 1].heightFt))))
  {}

  /** When `current` is the earliest point it is compared with itself: slack, unless its
      height is NaN, which makes the change NaN and the result falling. */
  lemma EarliestCurrentIsSlack(predictions: seq<Prediction>, now: int)
    requires Timeline(predictions) != [] && CurrentIndex(Timeline(predictions), now) == 0
    ensures Timeline(predictions)[0].heightFt != Some(NaN) ==> TidePhaseFromSeries(predictions, now) == Some(Slack)
    ensures Timeline(predictions)[0].heightFt == Some(NaN) ==> TidePhaseFromSeries(predictions, now) == Some(Falling)
  {
    TidePhaseIsTrend(predictions, now);
  }

  /** Predictions given out of order are sorted first: a low at t=0 and a high at t=100,
      listed high first, read as a rising tide at t=50. */
  lemma TidePhaseRisingExample()
    ensures TidePhaseFromSeries([Prediction(Some(100), Some(N(2.0))), Prediction(Some(0), Some(N(1.0)))], 50)
      == Some(Rising)
  {
    var ps := [Prediction(Some(100), Some(N(2.0))), Prediction(Some(0), Some(N(1.0)))];
    var s := [TimedPoint(0, Some(N(1.0))), TimedPoint(100, Some(N(2.0)))];
    RisingExampleTimeline(ps, s);
    TidePhaseIsTrend(ps, 50);
    assert FirstAfter(s, 50) == 1;
    assert CurrentIndex(s, 50) == 1;
    assert Minus(N(2.0), N(1.0)) == N(1.0);
  }

  lemma RisingExampleTimeline(ps: seq<Prediction>, s: seq<TimedPoint>)
    requires ps == [Prediction(Some(100), Some(N(2.0))), Prediction(Some(0), Some(N(1.0)))]
    requires s == [TimedPoint(0, Some(N(1.0))), TimedPoint(100, Some(N(2.0)))]
    ensures Timeline(ps) == s
  {
    assert Dated(ps[1..]) == [TimedPoint(0, Some(N(1.0)))];
    var d := Dated(ps);
    assert d == [TimedPoint(100, Some(N(2.0))), TimedPoint(0, Some(N(1.0)))];
    assert SortByDate(d[1..]) == [d[1]];
    assert SortByDate(d) == Insert(d[0], [d[1]]);
  }

  // ---------------------------------------------------------------- rating

  datatype Rating = Good | Caution | Bad

  function RatingName(r: Rating): string {
    match r
    case Good => "good"
    case Caution => "caution"
    case Bad => "bad"
  }

  function Severity(r: Rating): nat {
    match r
    case Good => 0
    case Caution => 1
    case Bad => 2
  }

  /** `n > limit` on a number that may be NaN. */
  predicate Above(n: Num, limit: real) { n.N? && n.v > limit }

  /** `waterLevel != null && Math.abs(waterLevel) > limit`. */
  predicate LevelAbove(level: Option<Num>, limit: real) {
    level.Some? && level.value.N? && Abs(level.value.v) > limit
  }

  /** `wind ?? 0`. */
  function WindOrZero(wind: Option<Num>): Num {
    if wind.Some? then wind.value else N(0.0)
  }

  /** `computeRating`: bad above 20 kt or beyond 2 ft of water level, caution above 12 kt or
      beyond 1.5 ft, good otherwise. */
  function RatingOf(wind: Option<Num>, waterLevel: Option<Num>): (r: Rating)
    ensures r == Bad <==> Above(WindOrZero(wind), 20.0) || LevelAbove(waterLevel, 2.0)
    ensures r == Good <==> !Above(WindOrZero(wind), 12.0) && !LevelAbove(waterLevel, 1.5)
  {
    if Above(WindOrZero(wind), 20.0) || LevelAbove(waterLevel, 2.0) then Bad
    else if Above(WindOrZero(wind), 12.0) || LevelAbove(waterLevel, 1.5) then Caution
    else Good
  }

  /** More wind never gives a better rating at the same water level. */
  lemma RatingMonotoneInWind(a: real, b: real, waterLevel: Option<Num>)
    requires a <= b
    ensures Severity(RatingOf(Some(N(a)), waterLevel)) <= Severity(RatingOf(Some(N(b)), waterLevel))
  {}

  /** A higher water level, of either sign, never gives a better rating at the same wind. */
  lemma RatingMonotoneInWaterLevel(wind: Option<Num>, x: real, y: real)
    requires Abs(x) <= Abs(y)
    ensures Severity(RatingOf(wind, Some(N(x)))) <= Severity(RatingOf(wind, Some(N(y))))
  {}

  /** A null wind rates as 0 kt, and so does a NaN wind (every comparison with it is false). */
  lemma RatingNullWindIsCalm(waterLevel: Option<Num>)
    ensures RatingOf(None, waterLevel) == RatingOf(Some(N(0.0)), waterLevel)
    ensures RatingOf(Some(NaN), waterLevel) == RatingOf(Some(N(0.0)), waterLevel)
  {}

  // ---------------------------------------------------------------- summary text

  /** The status word of a rating string; anything but "good" and "caution" is "Rough". */
  function StatusWord(rating: string): (r: string)
    ensures r == "Good" || r == "Caution" || r == "Rough"
    ensures Lacks(r, '/') && Lacks(r, 'e')
    ensures r == "Good" <==> rating == "good"
    ensures r == "Caution" <==> rating == "caution"
  {
    if rating == "good" then "Good" else if rating == "caution" then "Caution" else "Rough"
  }

  /** `n.toFixed(0)`: the nearest integer, ties away from zero, with a sign for negative
      numbers (also for those that round to 0); "NaN" for NaN. */
  function Fixed0(n: Num): (r: string)
    ensures forall i :: 0 <= i < |r| ==> Text.IsDigit(r[i]) || r[i] in "-NaN"
  {
    match n
    case NaN => "NaN"
    case N(v) =>
      if v < 0.0 then "-" + Text.NatToString(RoundHalfUp(-v)) else Text.NatToString(RoundHalfUp(v))
  }

  /** The integer nearest a non-negative real, ties upward. */
  function RoundHalfUp(x: real): (n: nat)
    requires x >= 0.0
    ensures x - 0.5 < n as real <= x + 0.5
  {
    Js.Round(x)
  }

  /** `pieces.join(sep)`. */
  function Join(pieces: seq<string>, sep: string): string {
    if pieces == [] then ""
    else if |pieces| == 1 then pieces[0]
    else pieces[0] + sep + Join(pieces[1..], sep)
  }

  /** The wind piece: the speed in whole knots, or "n/a" for a null wind. */
  function WindPiece(wind: Option<Num>): (r: string)
    ensures wind.None? <==> r == "Winds n/a"
    ensures wind.Some? ==> Lacks(r, '/')
    ensures Lacks(r, 'e')
  {
    if wind.Some? then "Winds " + Fixed0(wind.value) + " kt" else "Winds n/a"
  }

  /** The tide piece, "<phase> tide", when a phase is given. */
  function TidePiece(phase: TidePhase): (r: string)
    ensures Lacks(r, '/')
    ensures |r| >= 5 && r[|r| - 5..] == " tide"
  {
    PhaseName(phase) + " tide"
  }

  function Pieces(wind: Option<Num>, tide: Option<TidePhase>): seq<string> {
    if tide.Some? then [WindPiece(wind), TidePiece(tide.value)] else [WindPiece(wind)]
  }

  /** `summarizeConditions`: "<Status> conditions. <pieces joined by ', '>." trimmed. */
  function Summarize(wind: Option<Num>, tide: Option<TidePhase>, rating: string): string {
    Text.Trim(StatusWord(rating) + " conditions. " + Join(Pieces(wind, tide), ", ") + ".")
  }

  predicate Lacks(s: string, c: char) { forall i :: 0 <= i < |s| ==> s[i] != c }

  /** A text that lacks a character that `w` has does not contain `w`. */
  lemma LacksNotContains(t: string, w: string, k: nat)
    requires k < |w| && Lacks(t, w[k])
    ensures !Text.Contains(t, w)
  {
    Text.ContainsIff(t, w);
  }

  /** A text contains each of its middle parts. */
  lemma ContainsMiddle(a: string, w: string, b: string)
    ensures Text.Contains(a + w + b, w)
  {
    var t := a + w + b;
    assert t[|a|..|a| + |w|] == w;
    assert Text.OccursAt(w, t, |a|);
    Text.ContainsIff(t, w);
  }

  /** A text framed by a non-space first character and a final '.' is its own trim. */
  lemma TrimFramed(w: string, m: string)
    requires w != [] && !Text.IsSpace(w[0])
    ensures Text.Trim(w + m + ".") == w + m + "."
  {
    var b := w + m + ".";
    assert b[0] == w[0] && b[|b| - 1] == '.';
    Text.TrimNoEdgeSpace(b);
  }

  lemma JoinOne(a: string, sep: string)
    ensures Join([a], sep) == a
  {}

  lemma JoinTwo(a: string, b: string, sep: string)
    ensures Join([a, b], sep) == a + sep + b
  {
    assert [a, b][1..] == [b];
  }

  /** What follows the wind piece: ", <phase> tide." when a phase is given, else ".". */
  function Tail(tide: Option<TidePhase>): (r: string)
    ensures Lacks(r, '/')
    ensures tide.None? ==> r == "."
  {
    if tide.Some? then ", " + TidePiece(tide.value) + "." else "."
  }

  lemma LacksConcat(a: string, b: string, c: char)
    requires Lacks(a, c) && Lacks(b, c)
    ensures Lacks(a + b, c)
  {}

  lemma Regroup(h: string, a: string, b: string, c: string, d: string)
    ensures h + (a + b + c) + d == h + a + (b + c + d)
  {}

  lemma SuffixOf(a: string, e: string)
    ensures |e| <= |a + e| && (a + e)[|a + e| - |e|..] == e
  {}

  /** The trim finds no edge whitespace. */
  lemma SummarizeUntrimmed(wind: Option<Num>, tide: Option<TidePhase>, rating: string)
    ensures Summarize(wind, tide, rating)
      == StatusWord(rating) + " conditions. " + Join(Pieces(wind, tide), ", ") + "."
  {
    var w := StatusWord(rating);
    var head := w + " conditions. ";
    assert head[0] == w[0];
    TrimFramed(head, Join(Pieces(wind, tide), ", "));
  }

  /** The joined pieces and the final '.': the wind piece, then the tail. */
  lemma JoinedPieces(wind: Option<Num>, tide: Option<TidePhase>)
    ensures Join(Pieces(wind, tide), ", ") + "." == WindPiece(wind) + Tail(tide)
  {
    if tide.Some? {
      JoinTwo(WindPiece(wind), TidePiece(tide.value), ", ");
      Regroup([], WindPiece(wind), ", ", TidePiece(tide.value), ".");
    } else {
      JoinOne(WindPiece(wind), ", ");
    }
  }

  lemma Reattach(h: string, j: string, wp: string, tl: string)
    requires j + "." == wp + tl
    ensures h + j + "." == h + wp + tl
  {
    calc {
      h + j + ".";
      h + (j + ".");
      h + (wp + tl);
      h + wp + tl;
    }
  }

  /** The text: the status word, " conditions. ", the wind piece and the tail. */
  lemma SummaryParts(wind: Option<Num>, tide: Option<TidePhase>, rating: string)
    ensures Summarize(wind, tide, rating) == StatusWord(rating) + " conditions. " + WindPiece(wind) + Tail(tide)
  {
    SummarizeUntrimmed(wind, tide, rating);
    JoinedPieces(wind, tide);
    Reattach(StatusWord(rating) + " conditions. ", Join(Pieces(wind, tide), ", "), WindPiece(wind), Tail(tide));
  }

  /** The text starts with the status word of the rating. */
  lemma SummaryStartsWithStatus(wind: Option<Num>, tide: Option<TidePhase>, rating: string)
    ensures var t, w := Summarize(wind, tide, rating), StatusWord(rating);
      |w| <= |t| && t[..|w|] == w
  {
    SummaryParts(wind, tide, rating);
    PrefixOfFour(StatusWord(rating), " conditions. ", WindPiece(wind), Tail(tide));
  }

  lemma PrefixOfFour(a: string, b: string, c: string, d: string)
    ensures |a| <= |a + b + c + d| && (a + b + c + d)[..|a|] == a
  {
    assert a + b + c + d == a + (b + c + d);
  }

  /** The text contains "Winds n/a" exactly when the wind is null: a rendered number has no
      '/'. */
  lemma SummaryWindUnknown(wind: Option<Num>, tide: Option<TidePhase>, rating: string)
    ensures Text.Contains(Summarize(wind, tide, rating), "Winds n/a") <==> wind.None?
  {
    SummaryParts(wind, tide, rating);
    WindTextFacts(StatusWord(rating), WindPiece(wind), Tail(tide));
  }

  lemma WindTextFacts(w: string, wp: string, tl: string)
    requires Lacks(w, '/') && Lacks(tl, '/')
    ensures wp == "Winds n/a" ==> Text.Contains(w + " conditions. " + wp + tl, "Winds n/a")
    ensures Lacks(wp, '/') ==> !Text.Contains(w + " conditions. " + wp + tl, "Winds n/a")
  {
    var head := w + " conditions. ";
    if wp == "Winds n/a" {
      ContainsMiddle(head, "Winds n/a", tl);
    }
    if Lacks(wp, '/') {
      LacksConcat(w, " conditions. ", '/');
      LacksConcat(head, wp, '/');
      LacksConcat(head + wp, tl, '/');
      LacksNotContains(head + wp + tl, "Winds n/a", 7);
    }
  }

  /** The text contains " tide" exactly when a phase is given, and then ends with
      "<phase> tide.": nothing else in it has an 'e'. */
  lemma SummaryTide(wind: Option<Num>, tide: Option<TidePhase>, rating: string)
    ensures Text.Contains(Summarize(wind, tide, rating), " tide") <==> tide.Some?
    ensures tide.Some? ==>
      var t, e := Summarize(wind, tide, rating), PhaseName(tide.value) + " tide.";
      |e| <= |t| && t[|t| - |e|..] == e
  {
    if tide.Some? {
      SummaryWithTide(wind, tide.value, rating);
    } else {
      SummaryParts(wind, tide, rating);
      TideTextAbsent(StatusWord(rating), WindPiece(wind));
    }
  }

  lemma SummaryWithTide(wind: Option<Num>, phase: TidePhase, rating: string)
    ensures var t, e := Summarize(wind, Some(phase), rating), PhaseName(phase) + " tide.";
      Text.Contains(t, " tide") && |e| <= |t| && t[|t| - |e|..] == e
  {
    SummaryParts(wind, Some(phase), rating);
    assert Tail(Some(phase)) == ", " + (PhaseName(phase) + " tide") + ".";
    TideTextPresent(StatusWord(rating) + " conditions. " + WindPiece(wind), PhaseName(phase));
  }

  lemma TideTextPresent(front: string, name: string)
    ensures var t, e := front + (", " + (name + " tide") + "."), name + " tide.";
      Text.Contains(t, " tide") && |e| <= |t| && t[|t| - |e|..] == e
  {
    var t := front + (", " + (name + " tide") + ".");
    assert t == front + ", " + name + " tide" + ".";
    ContainsMiddle(front + ", " + name, " tide", ".");
    assert t == front + ", " + (name + " tide.");
    SuffixOf(front + ", ", name + " tide.");
  }

  lemma TideTextAbsent(w: string, wp: string)
    requires Lacks(w, 'e') && Lacks(wp, 'e')
    ensures !Text.Contains(w + " conditions. " + wp + ".", " tide")
  {
    LacksConcat(w, " conditions. ", 'e');
    LacksConcat(w + " conditions. ", wp, 'e');
    LacksConcat(w + " conditions. " + wp, ".", 'e');
    LacksNotContains(w + " conditions. " + wp + ".", " tide", 4);
  }

  // ---------------------------------------------------------------- records

  /** A station of the configuration table. */
  datatype StationConfig = StationConfig(id: string, name: string, lat: real, lon: real, noaaStationId: string)

  /** The latest water-level reading: its time (a string, or null) and level (None is null). */
  datatype WaterReading = WaterReading(time: Json, waterLevelFt: Option<Num>)

  /** A station's conditions record. Absent values are null: None for the numeric fields and
      JNull for the fields copied from the forecast. */
  datatype StationConditions = StationConditions(
    stationId: string,
    name: string,
    lat: real,
    lon: real,
    windSpeedKts: Option<Num>,
    windGustKts: Option<Num>,
    windDirDeg: Json,
    airTempF: Json,
    waterTempF: Option<Num>,
    waterLevelFt: Option<Num>,
    tidePhase: Option<TidePhase>,
    source: string,
    observedAt: Json)

  /** `a || b || null` on values that may be undefined. */
  function FirstTruthy(a: Option<Json>, b: Option<Json>): (r: Json)
    ensures Present(a) ==> r == a.value
    ensures !Present(a) && Present(b) ==> r == b.value
    ensures !Present(a) && !Present(b) ==> r == JNull
  {
    if Present(a) then a.value else if Present(b) then b.value else JNull
  }

  /** `buildStationConditions(config, water, forecast, tidePhase)`. An absent water reading
      is None; a forecast that is not an array is None; `firstHour` is its first period. */
  function BuildStationConditions(config: StationConfig, water: Option<WaterReading>,
                                  forecast: Option<seq<NoaaWeather.HourlyPeriod>>,
                                  tidePhase: Option<TidePhase>): (r: StationConditions)
    ensures r.stationId == config.id && r.name == config.name
    ensures r.lat == config.lat && r.lon == config.lon
    ensures r.windGustKts.None? && r.waterTempF.None? && r.source == "NOAA"
    ensures r.tidePhase == tidePhase
    ensures (forecast.None? || forecast.value == []) ==>
      r.windSpeedKts.None? && r.windDirDeg == JNull && r.airTempF == JNull
    ensures forecast.Some? && forecast.value != [] ==>
      var h := forecast.value[0];
      && r.windSpeedKts == h.windSpeedKts
      && r.windDirDeg == Coalesce(h.windDirection, JNull)
      && r.airTempF == Coalesce(h.temperatureF, JNull)
    ensures r.waterLevelFt == (if water.Some? then water.value.waterLevelFt else None)
    ensures water.Some? && Truthy(water.value.time) ==> r.observedAt == water.value.time
    ensures !(water.Some? && Truthy(water.value.time)) ==>
      r.observedAt == (if forecast.Some? && forecast.value != [] then FirstTruthy(forecast.value[0].startTime, None) else JNull)
  {
    var firstHour: Option<NoaaWeather.HourlyPeriod> :=
      if forecast.Some? && forecast.value != [] then Some(forecast.value[0]) else None;
    StationConditions(
      config.id, config.name, config.lat, config.lon,
      if firstHour.Some? then firstHour.value.windSpeedKts else None,
      None,
      if firstHour.Some? then Coalesce(firstHour.value.windDirection, JNull) else JNull,
      if firstHour.Some? then Coalesce(firstHour.value.temperatureF, JNull) else JNull,
      None,
      if water.Some? then water.value.waterLevelFt else None,
      tidePhase,
      "NOAA",
      FirstTruthy(if water.Some? then Some(water.value.time) else None,
                  if firstHour.Some? then firstHour.value.startTime else None))
  }

  /** `buildStationConditions(config)` with nothing else: every observation is null. */
  lemma EmptyStationConditions(config: StationConfig)
    ensures var r := BuildStationConditions(config, None, None, None);
      && r.windSpeedKts.None? && r.windGustKts.None? && r.windDirDeg == JNull && r.airTempF == JNull
      && r.waterTempF.None? && r.waterLevelFt.None? && r.tidePhase.None? && r.observedAt == JNull
  {}

  /** The summary record of a station. */
  datatype Summary = Summary(
    rating: Rating,
    message: string,
    stationId: string,
    stationName: string,
    area: string,
    windSpeedKts: Option<Num>,
    windDirDeg: Json,
    waveHeightFt: Option<Num>,
    tidePhase: Option<TidePhase>,
    updatedAt: string)

  /** `buildSummary`: the rating of the station and its text; the station's identity and
      wind copied; no wave height. `updatedAt` is the time of the call, an input here. */
  function BuildSummary(s: StationConditions, updatedAt: string): (r: Summary)
    ensures r.rating == RatingOf(s.windSpeedKts, s.waterLevelFt)
    ensures r.message == Summarize(s.windSpeedKts, s.tidePhase, RatingName(r.rating))
    ensures r.stationId == s.stationId && r.stationName == s.name && r.area == "Mobile Bay"
    ensures r.windSpeedKts == s.windSpeedKts && r.windDirDeg == s.windDirDeg && r.tidePhase == s.tidePhase
    ensures r.waveHeightFt.None? && r.updatedAt == updatedAt
  {
    var rating := RatingOf(s.windSpeedKts, s.waterLevelFt);
    Summary(rating, Summarize(s.windSpeedKts, s.tidePhase, RatingName(rating)),
            s.stationId, s.name, "Mobile Bay", s.windSpeedKts, s.windDirDeg, None,
            s.tidePhase, updatedAt)
  }

  /** The message of a summary opens with the word for its rating. */
  lemma SummaryMessageMatchesRating(s: StationConditions, updatedAt: string)
    ensures var r := BuildSummary(s, updatedAt);
      var w := match r.rating case Good => "Good" case Caution => "Caution" case Bad => "Rough";
      |w| <= |r.message| && r.message[..|w|] == w
  {
    var r := BuildSummary(s, updatedAt);
    SummaryStartsWithStatus(s.windSpeedKts, s.tidePhase, RatingName(r.rating));
  }
}
