/** The polling loop of src/polling/poll.js: six scrapers are run in a fixed order, their
    results are shallow-merged into a null-filled template, their errors are concatenated,
    and the poller decides between a fresh payload and a stale copy of the previous one.
    The module-level `currentConditions` and the cache file are the two fields of
    `Poller`; the file is an abstract store whose writes may fail. */
module Poll {
  import opened Wrappers
  import opened Js

  /** A conditions payload: a JSON object. */
  type Payload = map<string, Json>

  /** The sections of the template, which are also the scrapers' names, in run order. */
  const Sections: seq<string> := ["tide", "weather", "wind", "marine", "moon", "radar"]

  /** The fields of each template section. */
  function SectionFields(section: string): seq<string> {
    match section
    case "tide" => ["currentFt", "nextHigh", "nextLow", "trend"]
    case "weather" => ["tempF", "feelsLikeF", "humidityPct", "visibilityMi", "summary"]
    case "wind" => ["speedMph", "gustMph", "directionDeg", "directionCardinal"]
    case "marine" => ["waveHeightFt", "summary"]
    case "moon" => ["phase", "illuminationPct", "moonrise", "moonset"]
    case "radar" => ["imageUrl", "updatedAt"]
    case _ => []
  }

  /** An object whose named fields are all null. */
  function NullObject(names: seq<string>): Json {
    JObj(map n | n in names :: JNull)
  }

  /** The keys every template has. */
  function TemplateKeys(): set<string> {
    {"updatedAt", "stale", "errors"} + set s | s in Sections
  }

  /** `createEmptyConditions({updatedAt, stale, errors})`. */
  function EmptyConditions(updatedAt: string, stale: bool, errors: seq<Json>): (r: Payload)
    ensures r.Keys == TemplateKeys()
    ensures r["updatedAt"] == JStr(updatedAt) && r["stale"] == JBool(stale) && r["errors"] == JArr(errors)
  {
    map k | k in TemplateKeys() ::
      if k == "updatedAt" then JStr(updatedAt)
      else if k == "stale" then JBool(stale)
      else if k == "errors" then JArr(errors)
      else NullObject(SectionFields(k))
  }

  /** Every field of every section of the template is null, and each section has exactly
      its listed fields. */
  lemma EmptySectionsAreNull(updatedAt: string, stale: bool, errors: seq<Json>, section: string)
    requires section in Sections
    ensures var r := EmptyConditions(updatedAt, stale, errors);
      r[section].JObj?
      && r[section].fields.Keys == set f | f in SectionFields(section)
      && forall f :: f in r[section].fields ==> r[section].fields[f] == JNull
  {
    assert section != "updatedAt" && section != "stale" && section != "errors";
    NullObjectShape(SectionFields(section));
  }

  /** A null-filled object has exactly the given names, each null. */
  lemma NullObjectShape(names: seq<string>)
    ensures NullObject(names).JObj?
    ensures NullObject(names).fields.Keys == set f | f in names
    ensures forall f :: f in NullObject(names).fields ==> NullObject(names).fields[f] == JNull
  {
  }

  // ------------------------------------------------------------------ collecting

  /** What one scraper's `run()` did: threw an error with a message, or resolved to a value
      (`undefined` is represented by null: both are falsy and have no entries). */
  datatype ScraperOutcome = Threw(message: string) | Returned(result: Json)

  /** Whether the entry `key` of a result is merged into `conds`: it is not "errors", and
      the template already holds a truthy value under that key. */
  predicate Mergeable(conds: Payload, entries: map<string, Json>, key: string) {
    key != "errors" && key in entries && key in conds && Truthy(conds[key])
  }

  /** `conds` after the entries whose keys are in `done` were merged, each as
      `conds[key] = { ...conds[key], ...value }`. */
  function Merged(conds: Payload, entries: map<string, Json>, done: set<string>): Payload {
    map k | k in conds ::
      if k in done && Mergeable(conds, entries, k) then JObj(Spread(conds[k]) + Spread(entries[k]))
      else conds[k]
  }

  /** The merge of one truthy result: all of its own entries. */
  function MergeResult(conds: Payload, result: Json): Payload {
    Merged(conds, Spread(result), Spread(result).Keys)
  }

  /** Merging a result keeps the keys; each truthy section the result names, other than
      "errors", becomes the section spread with the result's value; nothing else changes. */
  lemma MergeResultShape(conds: Payload, result: Json)
    ensures var r := MergeResult(conds, result);
      && r.Keys == conds.Keys
      && (forall k :: k in conds && !Mergeable(conds, Spread(result), k) ==> r[k] == conds[k])
      && (forall k :: k in conds && Mergeable(conds, Spread(result), k) ==>
            r[k] == JObj(Spread(conds[k]) + Spread(Spread(result)[k])))
  {
  }

  /** Merging one more entry changes at most that entry. */
  lemma MergedStep(conds: Payload, entries: map<string, Json>, done: set<string>, key: string)
    requires key in entries && key !in done
    ensures var before := Merged(conds, entries, done);
      Merged(conds, entries, done + {key})
        == if key != "errors" && key in before && Truthy(before[key])
           then before[key := JObj(Spread(before[key]) + Spread(entries[key]))]
           else before
  {
  }

  /** The merge of a truthy scraper result into the conditions. */
  method MergeInto(conds: Payload, result: Json) returns (r: Payload)
    ensures r == MergeResult(conds, result)
  {
    r := MergeEntries(conds, Spread(result));
  }

  /** The `forEach` over `Object.entries(result)`, one entry at a time. */
  method MergeEntries(conds: Payload, entries: map<string, Json>) returns (r: Payload)
    ensures r == Merged(conds, entries, entries.Keys)
  {
    var todo := entries.Keys;
    ghost var done: set<string> := {};
    r := conds;
    while todo != {}
      invariant todo + done == entries.Keys && todo !! done
      invariant r == Merged(conds, entries, done)
      decreases todo
    {
      var key :| key in todo;
      MergedStep(conds, entries, done, key);
      if key != "errors" && key in r && Truthy(r[key]) {
        r := r[key := JObj(Spread(r[key]) + Spread(entries[key]))];
      }
      todo := todo - {key};
      done := done + {key};
    }
  }

  /** The errors a result carries: its `errors` property when that is an array. */
  function ResultErrors(result: Json): seq<Json> {
    match Get(result, "errors")
    case Some(JArr(items)) => items
    case _ => []
  }

  /** The message pushed for a scraper that threw. */
  function ScraperErrorMessage(name: string, message: string): Json {
    JStr(name + " scraper error: " + message)
  }

  /** The errors one scraper contributes. */
  function ScraperErrors(name: string, outcome: ScraperOutcome): seq<Json> {
    match outcome
    case Threw(m) => [ScraperErrorMessage(name, m)]
    case Returned(v) => if Truthy(v) then ResultErrors(v) else []
  }

  /** The conditions after one scraper. */
  function ScraperStep(conds: Payload, outcome: ScraperOutcome): Payload {
    match outcome
    case Threw(_) => conds
    case Returned(v) => if Truthy(v) then MergeResult(conds, v) else conds
  }

  /** The conditions after the first `i` scrapers. */
  function ConditionsAfter(stamp: string, outcomes: seq<ScraperOutcome>, i: nat): Payload
    requires i <= |outcomes|
  {
    if i == 0 then EmptyConditions(stamp, false, [])
    else ScraperStep(ConditionsAfter(stamp, outcomes, i - 1), outcomes[i - 1])
  }

  /** The combined errors of the first `i` scrapers, in run order. */
  function ErrorsAfter(outcomes: seq<ScraperOutcome>, i: nat): seq<Json>
    requires i <= |outcomes| <= |Sections|
  {
    if i == 0 then []
    else ErrorsAfter(outcomes, i - 1) + ScraperErrors(Sections[i - 1], outcomes[i - 1])
  }

  /** `collectConditions`: the merged conditions, whose `errors` is the combined list, and
      that list. One `stamp` stands for the clock reads of the call. */
  function Collect(stamp: string, outcomes: seq<ScraperOutcome>): (Payload, seq<Json>)
    requires |outcomes| == |Sections|
  {
    var errors := ErrorsAfter(outcomes, |outcomes|);
    (ConditionsAfter(stamp, outcomes, |outcomes|)["errors" := JArr(errors)], errors)
  }

  /** `collectConditions`, scraper by scraper. */
  method CollectConditions(stamp: string, outcomes: seq<ScraperOutcome>)
    returns (conditions: Payload, errors: seq<Json>)
    requires |outcomes| == |Sections|
    ensures (conditions, errors) == Collect(stamp, outcomes)
  {
    errors := [];
    conditions := EmptyConditions(stamp, false, []);
    var i := 0;
    while i < |outcomes|
      invariant 0 <= i <= |outcomes|
      invariant conditions == ConditionsAfter(stamp, outcomes, i)
      invariant errors == ErrorsAfter(outcomes, i)
    {
      match outcomes[i] {
        case Threw(m) =>
          errors := errors + [ScraperErrorMessage(Sections[i], m)];
        case Returned(result) =>
          if Truthy(result) {
            conditions := MergeInto(conditions, result);
            match Get(result, "errors") {
              case Some(JArr(items)) =>
                errors := errors + items;
              case _ =>
            }
          }
      }
      i := i + 1;
    }
    conditions := conditions["errors" := JArr(errors)];
  }

  /** Merging never adds or removes a key of the template. */
  lemma {:induction false} ConditionsAfterKeys(stamp: string, outcomes: seq<ScraperOutcome>, i: nat)
    requires i <= |outcomes|
    ensures ConditionsAfter(stamp, outcomes, i).Keys == TemplateKeys()
  {
    if i > 0 {
      ConditionsAfterKeys(stamp, outcomes, i - 1);
    }
  }

  /** The "errors" entry is never merged, and the falsy "stale" entry never either. */
  lemma {:induction false} ErrorsAndStaleNeverMerged(stamp: string, outcomes: seq<ScraperOutcome>, i: nat)
    requires i <= |outcomes|
    ensures var c := ConditionsAfter(stamp, outcomes, i);
      "errors" in c && c["errors"] == JArr([]) && "stale" in c && c["stale"] == JBool(false)
  {
    if i > 0 {
      ErrorsAndStaleNeverMerged(stamp, outcomes, i - 1);
    }
  }

  /** The collected payload has exactly the template's keys, is not stale, and carries the
      combined errors. */
  lemma CollectShape(stamp: string, outcomes: seq<ScraperOutcome>)
    requires |outcomes| == |Sections|
    ensures var (c, e) := Collect(stamp, outcomes);
      c.Keys == TemplateKeys() && c["stale"] == JBool(false) && c["errors"] == JArr(e)
  {
    ConditionsAfterKeys(stamp, outcomes, |outcomes|);
    ErrorsAndStaleNeverMerged(stamp, outcomes, |outcomes|);
  }

  /** The errors of earlier scrapers come first: the combined list of `j` scrapers is a
      prefix of the combined list of all `i >= j`. */
  lemma {:induction false} ErrorsInRunOrder(outcomes: seq<ScraperOutcome>, j: nat, i: nat)
    requires j <= i <= |outcomes| <= |Sections|
    ensures |ErrorsAfter(outcomes, j)| <= |ErrorsAfter(outcomes, i)|
    ensures ErrorsAfter(outcomes, i)[..|ErrorsAfter(outcomes, j)|] == ErrorsAfter(outcomes, j)
  {
    if j < i {
      ErrorsInRunOrder(outcomes, j, i - 1);
      var a := ErrorsAfter(outcomes, j);
      var b := ErrorsAfter(outcomes, i - 1);
      var extra := ScraperErrors(Sections[i - 1], outcomes[i - 1]);
      assert (b + extra)[..|a|] == b[..|a|];
    }
  }

  /** A scraper that throws is reported under its own name right after the errors of the
      scrapers before it, and the scrapers after it still run: for the conditions, the
      throw counts as a result with nothing in it. */
  lemma ThrowIsReportedAndSkipped(stamp: string, outcomes: seq<ScraperOutcome>, k: nat)
    requires |outcomes| == |Sections| && k < |outcomes| && outcomes[k].Threw?
    ensures var e := Collect(stamp, outcomes).1;
      var before := |ErrorsAfter(outcomes, k)|;
      before < |e| && e[before] == ScraperErrorMessage(Sections[k], outcomes[k].message)
    ensures ConditionsAfter(stamp, outcomes, |outcomes|)
      == ConditionsAfter(stamp, outcomes[k := Returned(JNull)], |outcomes|)
  {
    ThrowIsReported(outcomes, k);
    ThrowLeavesConditions(stamp, outcomes, k, |outcomes|);
  }

  /** The message of a throwing scraper follows the errors of the scrapers before it. */
  lemma ThrowIsReported(outcomes: seq<ScraperOutcome>, k: nat)
    requires |outcomes| == |Sections| && k < |outcomes| && outcomes[k].Threw?
    ensures var e := ErrorsAfter(outcomes, |outcomes|);
      var before := |ErrorsAfter(outcomes, k)|;
      before < |e| && e[before] == ScraperErrorMessage(Sections[k], outcomes[k].message)
  {
    var msg := ScraperErrorMessage(Sections[k], outcomes[k].message);
    var before := ErrorsAfter(outcomes, k);
    var e := ErrorsAfter(outcomes, |outcomes|);
    assert ErrorsAfter(outcomes, k + 1) == before + [msg];
    assert |before| + 1 <= |e| && e[..|before| + 1] == before + [msg] by {
      ErrorsInRunOrder(outcomes, k + 1, |outcomes|);
    }
    PrefixThen(e, before, msg);
  }

  /** A sequence that starts with `p + [x]` holds x right after p. */
  lemma PrefixThen<T>(e: seq<T>, p: seq<T>, x: T)
    requires |p| + 1 <= |e| && e[..|p| + 1] == p + [x]
    ensures e[|p|] == x
  {
    assert e[|p|] == e[..|p| + 1][|p|];
  }

  /** Replacing the throw of scraper `k` by an empty result does not change the conditions
      after any number of scrapers. */
  lemma {:induction false} ThrowLeavesConditions(stamp: string, outcomes: seq<ScraperOutcome>, k: nat, i: nat)
    requires k < |outcomes| && i <= |outcomes| && outcomes[k].Threw?
    ensures ConditionsAfter(stamp, outcomes, i) == ConditionsAfter(stamp, outcomes[k := Returned(JNull)], i)
  {
    if i > 0 {
      ThrowLeavesConditions(stamp, outcomes, k, i - 1);
      var replaced := outcomes[k := Returned(JNull)];
      var c := ConditionsAfter(stamp, outcomes, i - 1);
      if i - 1 == k {
        ThrowIsNoStep(c, outcomes[k]);
      } else {
        assert replaced[i - 1] == outcomes[i - 1];
      }
      SameStepSameConditions(stamp, outcomes, replaced, i);
    }
  }

  /** A scraper that throws leaves the conditions as an empty result does. */
  lemma ThrowIsNoStep(c: Payload, o: ScraperOutcome)
    requires o.Threw?
    ensures ScraperStep(c, o) == ScraperStep(c, Returned(JNull)) == c
  {
    assert !Truthy(JNull);
  }

  /** Runs that agree up to scraper `i - 1` and whose scraper `i - 1` has the same effect
      agree after `i` scrapers. */
  lemma SameStepSameConditions(stamp: string, a: seq<ScraperOutcome>, b: seq<ScraperOutcome>, i: nat)
    requires 0 < i <= |a| && i <= |b|
    requires ConditionsAfter(stamp, a, i - 1) == ConditionsAfter(stamp, b, i - 1)
    requires ScraperStep(ConditionsAfter(stamp, a, i - 1), a[i - 1])
      == ScraperStep(ConditionsAfter(stamp, a, i - 1), b[i - 1])
    ensures ConditionsAfter(stamp, a, i) == ConditionsAfter(stamp, b, i)
  {
  }

  // ------------------------------------------------------------------ the poller

  /** The poller's state: `currentConditions` (None while null) and the cache file (None
      while it is missing or does not parse). */
  datatype Store = Store(current: Option<Payload>, disk: Option<Json>)

  /** `persist(payload)`: `currentConditions` is set first, then the file is written; a
      failed write (`Some(message)`) leaves the file as it was and rejects. */
  function PersistStep(s: Store, payload: Payload, write: Option<string>): (Outcome<Payload>, Store) {
    if write.None? then (Resolved(payload), Store(Some(payload), Some(JObj(payload))))
    else (Rejected(write.value), Store(Some(payload), s.disk))
  }

  /** The payload rebuilt from a cached document:
      `{ ...createEmptyConditions({stale: true}), ...cached, errors: cached.errors || [] }`. */
  function Loaded(stamp: string, cached: Json): Payload {
    var errors := Or(Get(cached, "errors"), Some(JArr([])));
    (EmptyConditions(stamp, true, []) + Spread(cached))["errors" := errors.value]
  }

  /** `initializeConditions`: reuses the current payload; otherwise loads the cache file, or
      seeds an empty stale payload and writes it (`write` is that write's outcome). */
  function InitStep(s: Store, stamp: string, write: Option<string>): (Outcome<Payload>, Store) {
    if s.current.Some? then (Resolved(s.current.value), s)
    else if Present(s.disk) then
      var c := Loaded(stamp, s.disk.value);
      (Resolved(c), Store(Some(c), s.disk))
    else
      var (r, s1) := PersistStep(s, EmptyConditions(stamp, true, []), write);
      (if r.Resolved? then r else Rejected(r.message), s1)
  }

  /** A property set to `undefined` is left out of the object. */
  function SetMaybe(p: Payload, key: string, v: Option<Json>): Payload {
    if v.Some? then p[key := v.value] else p - {key}
  }

  /** The stale payload of a poll with errors: the previous payload (or the collected one
      when there is none) with `stale` true, the previous errors followed by the new ones,
      and the previous `updatedAt`. None when the previous errors cannot be spread. */
  function StalePayload(previous: Option<Payload>, conditions: Payload, errors: seq<Json>): Option<Payload> {
    var base := if previous.Some? then previous.value else conditions;
    var prevObj := if previous.Some? then Some(JObj(previous.value)) else None;
    var prevErrors := Or(GetOpt(prevObj, "errors"), Some(JArr([]))).value;
    match IterSpread(prevErrors)
    case None => None
    case Some(items) =>
      var updatedAt := Or(GetOpt(prevObj, "updatedAt"), Get(JObj(conditions), "updatedAt"));
      Some(SetMaybe(base["stale" := JBool(true)]["errors" := JArr(items + errors)], "updatedAt", updatedAt))
  }

  /** The fresh payload of a poll without errors. */
  function FreshPayload(conditions: Payload): Payload {
    conditions["stale" := JBool(false)]["errors" := JArr([])]
  }

  /** The payload of the exception path: the fallback with `stale` true, its `updatedAt`
      (or the clock's), and "Polling failed: <message>" after its errors. None when the
      fallback's errors cannot be spread. */
  function FailedPayload(fallback: Payload, stamp: string, message: string): Option<Payload> {
    var updatedAt := Or(Get(JObj(fallback), "updatedAt"), Some(JStr(stamp))).value;
    var errors := Or(Get(JObj(fallback), "errors"), Some(JArr([]))).value;
    match IterSpread(errors)
    case None => None
    case Some(items) =>
      Some(fallback["stale" := JBool(true)]["updatedAt" := updatedAt]
        ["errors" := JArr(items + [JStr("Polling failed: " + message)])])
  }

  /** The `catch` block: `write` is the outcome of its own write. */
  function RecoverStep(s: Store, previous: Option<Payload>, stamp: string, message: string, write: Option<string>)
    : (Outcome<Payload>, Store)
  {
    var fallback := if previous.Some? then previous.value else EmptyConditions(stamp, true, []);
    match FailedPayload(fallback, stamp, message)
    case None => (Rejected(TypeErrorMessage), s)
    case Some(p) => PersistStep(s, p, write)
  }

  /** `pollOnce`: `initWrite`, `pollWrite` and `recoverWrite` are the outcomes of the seeding
      write of the initialisation, the write of the poll and the write of the catch block. */
  function PollStep(s: Store, stamp: string, outcomes: seq<ScraperOutcome>,
                    initWrite: Option<string>, pollWrite: Option<string>, recoverWrite: Option<string>)
    : (Outcome<Payload>, Store)
    requires |outcomes| == |Sections|
  {
    var (ir, s1) := InitStep(s, stamp, initWrite);
    if ir.Rejected? then (ir, s1)
    else
      var previous := s1.current;
      var (conditions, errors) := Collect(stamp, outcomes);
      var attempt := if errors != [] then StalePayload(previous, conditions, errors) else Some(FreshPayload(conditions));
      if attempt.None? then RecoverStep(s1, previous, stamp, TypeErrorMessage, recoverWrite)
      else
        var (pr, s2) := PersistStep(s1, attempt.value, pollWrite);
        if pr.Resolved? then (pr, s2)
        else RecoverStep(s2, previous, stamp, pr.message, recoverWrite)
  }

  class Poller {
    var current: Option<Payload>
    var disk: Option<Json>

    /** A poller before its first initialisation, over a cache file holding `file`. */
    constructor(file: Option<Json>)
      ensures current.None? && disk == file
    {
      current := None;
      disk := file;
    }

    /** `getCurrentConditions`. */
    function CurrentConditions(stamp: string): (r: Payload)
      reads this
      ensures current.Some? ==> r == current.value
      ensures current.None? ==> r == EmptyConditions(stamp, true, [])
    {
      if current.Some? then current.value else EmptyConditions(stamp, true, [])
    }

    /** `initializeConditions`. */
    method Initialize(stamp: string, write: Option<string>) returns (r: Outcome<Payload>)
      modifies this
      ensures (r, Store(current, disk)) == InitStep(old(Store(current, disk)), stamp, write)
    {
      if current.Some? {
        return Resolved(current.value);
      }
      if disk.Some? && Truthy(disk.value) {
        current := Some(Loaded(stamp, disk.value));
        return Resolved(current.value);
      }
      var seed := EmptyConditions(stamp, true, []);
      r := Persist(seed, write);
    }

    /** `persist`. */
    method Persist(payload: Payload, write: Option<string>) returns (r: Outcome<Payload>)
      modifies this
      ensures (r, Store(current, disk)) == PersistStep(old(Store(current, disk)), payload, write)
    {
      current := Some(payload);
      if write.Some? {
        return Rejected(write.value);
      }
      disk := Some(JObj(payload));
      r := Resolved(payload);
    }

    /** The `catch` block of `pollOnce`. */
    method Recover(previous: Option<Payload>, stamp: string, message: string, write: Option<string>)
      returns (r: Outcome<Payload>)
      modifies this
      ensures (r, Store(current, disk)) == RecoverStep(old(Store(current, disk)), previous, stamp, message, write)
    {
      var fallback := if previous.Some? then previous.value else EmptyConditions(stamp, true, []);
      var payload := FailedPayload(fallback, stamp, message);
      if payload.None? {
        return Rejected(TypeErrorMessage);
      }
      r := Persist(payload.value, write);
    }

    /** `pollOnce`. */
    method PollOnce(stamp: string, outcomes: seq<ScraperOutcome>,
                    initWrite: Option<string>, pollWrite: Option<string>, recoverWrite: Option<string>)
      returns (r: Outcome<Payload>)
      requires |outcomes| == |Sections|
      modifies this
      ensures (r, Store(current, disk))
        == PollStep(old(Store(current, disk)), stamp, outcomes, initWrite, pollWrite, recoverWrite)
    {
      var init := Initialize(stamp, initWrite);
      if init.Rejected? {
        return init;
      }
      var previous := current;
      var conditions, errors := CollectConditions(stamp, outcomes);
      var attempt := if errors != [] then StalePayload(previous, conditions, errors) else Some(FreshPayload(conditions));
      if attempt.None? {
        r := Recover(previous, stamp, TypeErrorMessage, recoverWrite);
        return;
      }
      r := Persist(attempt.value, pollWrite);
      if r.Rejected? {
        r := Recover(previous, stamp, r.message, recoverWrite);
      }
    }
  }

  // ------------------------------------------------------------------ properties of a poll

  /** Once a payload is current, initialisation returns it and changes nothing. */
  lemma InitializeIsIdempotent(s: Store, stamp: string, write: Option<string>)
    requires s.current.Some?
    ensures InitStep(s, stamp, write) == (Resolved(s.current.value), s)
  {
  }

  /** With collected errors, the payload is the previous one with `stale` true, the
      previous `updatedAt`, and the previous errors followed by the new ones; every other
      key keeps its previous value, so newly collected values are discarded. */
  lemma ErrorsServePrevious(s: Store, stamp: string, outcomes: seq<ScraperOutcome>,
                            initWrite: Option<string>, recoverWrite: Option<string>, prevErrors: seq<Json>)
    requires |outcomes| == |Sections| && Collect(stamp, outcomes).1 != []
    requires s.current.Some? && "errors" in s.current.value && s.current.value["errors"] == JArr(prevErrors)
    requires "updatedAt" in s.current.value && Truthy(s.current.value["updatedAt"])
    ensures var prev := s.current.value;
      var (r, s1) := PollStep(s, stamp, outcomes, initWrite, None, recoverWrite);
      r.Resolved?
      && r.value.Keys == prev.Keys + {"stale"}
      && r.value["stale"] == JBool(true)
      && r.value["updatedAt"] == prev["updatedAt"]
      && r.value["errors"] == JArr(prevErrors + Collect(stamp, outcomes).1)
      && (forall k :: k in prev && k !in {"stale", "errors", "updatedAt"} ==> r.value[k] == prev[k])
  {
  }

  /** Without collected errors, the payload is the collected conditions with `stale` false
      and no errors. */
  lemma CleanPollIsFresh(s: Store, stamp: string, outcomes: seq<ScraperOutcome>,
                         initWrite: Option<string>, recoverWrite: Option<string>)
    requires |outcomes| == |Sections| && Collect(stamp, outcomes).1 == []
    requires s.current.None? && !Present(s.disk) ==> initWrite.None?
    ensures var (r, s1) := PollStep(s, stamp, outcomes, initWrite, None, recoverWrite);
      var c := Collect(stamp, outcomes).0;
      r == Resolved(c["stale" := JBool(false)]["errors" := JArr([])])
      && r.value.Keys == TemplateKeys()
  {
    CollectShape(stamp, outcomes);
  }

  /** Whatever a poll resolves to is the new current payload and what the file holds; a
      poll that rejects still leaves a current payload. */
  lemma ReturnedIsPersisted(s: Store, stamp: string, outcomes: seq<ScraperOutcome>,
                            initWrite: Option<string>, pollWrite: Option<string>, recoverWrite: Option<string>)
    requires |outcomes| == |Sections|
    ensures var (r, s1) := PollStep(s, stamp, outcomes, initWrite, pollWrite, recoverWrite);
      s1.current.Some?
      && (r.Resolved? ==> s1.current == Some(r.value) && s1.disk == Some(JObj(r.value)))
  {
    var (ir, s1) := InitStep(s, stamp, initWrite);
    InitSetsCurrent(s, stamp, initWrite);
    if ir.Resolved? {
      var previous := s1.current;
      var (conditions, errors) := Collect(stamp, outcomes);
      var attempt := if errors != [] then StalePayload(previous, conditions, errors) else Some(FreshPayload(conditions));
      if attempt.None? {
        RecoverStores(s1, previous, stamp, TypeErrorMessage, recoverWrite);
      } else {
        var (pr, s2) := PersistStep(s1, attempt.value, pollWrite);
        if pr.Rejected? {
          RecoverStores(s2, previous, stamp, pr.message, recoverWrite);
        }
      }
    }
  }

  /** Initialisation always leaves a current payload. */
  lemma InitSetsCurrent(s: Store, stamp: string, write: Option<string>)
    ensures InitStep(s, stamp, write).1.current.Some?
  {
  }

  /** The catch block, once a payload is current, keeps one current, and what it resolves
      to is current and on file. */
  lemma RecoverStores(s: Store, previous: Option<Payload>, stamp: string, message: string, write: Option<string>)
    requires s.current.Some?
    ensures var (r, s1) := RecoverStep(s, previous, stamp, message, write);
      s1.current.Some?
      && (r.Resolved? ==> s1.current == Some(r.value) && s1.disk == Some(JObj(r.value)))
  {
  }

  /** When the write of a poll fails, the previous payload comes back stale with
      "Polling failed: <message>" after its errors, so consecutive failing polls accumulate
      their messages. */
  lemma FailedWriteAppendsMessage(s: Store, stamp: string, outcomes: seq<ScraperOutcome>,
                                  initWrite: Option<string>, message: string, prevErrors: seq<Json>)
    requires |outcomes| == |Sections|
    requires s.current.Some? && "errors" in s.current.value && s.current.value["errors"] == JArr(prevErrors)
    ensures var (r, s1) := PollStep(s, stamp, outcomes, initWrite, Some(message), None);
      r.Resolved?
      && r.value["stale"] == JBool(true)
      && r.value["errors"] == JArr(prevErrors + [JStr("Polling failed: " + message)])
      && s1.current == Some(r.value)
  {
  }

  /** Two polls whose writes fail leave both messages, in order, after the first errors. */
  lemma ConsecutiveFailuresAccumulate(s: Store, stamp1: string, stamp2: string,
                                      outcomes1: seq<ScraperOutcome>, outcomes2: seq<ScraperOutcome>,
                                      m1: string, m2: string, prevErrors: seq<Json>)
    requires |outcomes1| == |Sections| && |outcomes2| == |Sections|
    requires s.current.Some? && "errors" in s.current.value && s.current.value["errors"] == JArr(prevErrors)
    ensures var (_, s1) := PollStep(s, stamp1, outcomes1, None, Some(m1), None);
      var (r, _) := PollStep(s1, stamp2, outcomes2, None, Some(m2), None);
      r.Resolved?
      && r.value["errors"]
        == JArr(prevErrors + [JStr("Polling failed: " + m1), JStr("Polling failed: " + m2)])
  {
    FailedWriteAppendsMessage(s, stamp1, outcomes1, None, m1, prevErrors);
    var (_, s1) := PollStep(s, stamp1, outcomes1, None, Some(m1), None);
    var e1 := prevErrors + [JStr("Polling failed: " + m1)];
    FailedWriteAppendsMessage(s1, stamp2, outcomes2, None, m2, e1);
    assert e1 + [JStr("Polling failed: " + m2)]
      == prevErrors + [JStr("Polling failed: " + m1), JStr("Polling failed: " + m2)];
  }
}
