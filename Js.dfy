/** The JavaScript values the model works on: JSON documents (what `JSON.parse` and the
    upstream feeds produce), numbers that may be NaN, truthiness, the object spread
    `{ ...v }`, the array spread `[...v]`, and the rounding and remainder operators. */
module Js {
  import opened Wrappers
  import Text

  /** A JavaScript number: finite (a real) or NaN. */
  datatype Num = NaN | N(v: real)

  /** A JSON value. Object key order is not modelled. */
  datatype Json =
    | JNull
    | JBool(b: bool)
    | JNum(n: real)
    | JStr(s: string)
    | JArr(items: seq<Json>)
    | JObj(fields: map<string, Json>)

  /** The message of the TypeError a property read on null (or a spread of a non-iterable)
      throws; the wording of the engine's message is not modelled. */
  const TypeErrorMessage: string := "TypeError"

  /** JavaScript truthiness of a JSON value. */
  predicate Truthy(v: Json) {
    match v
    case JNull => false
    case JBool(b) => b
    case JNum(n) => n != 0.0
    case JStr(s) => s != ""
    case _ => true
  }

  /** Truthiness of a value that may be `undefined` (None). */
  predicate Present(v: Option<Json>) {
    v.Some? && Truthy(v.value)
  }

  /** `a || b` on values that may be `undefined`. */
  function Or(a: Option<Json>, b: Option<Json>): (r: Option<Json>)
    ensures Present(a) ==> r == a
    ensures !Present(a) ==> r == b
  {
    if Present(a) then a else b
  }

  /** `v ?? d`: keeps v unless it is null or undefined. */
  function Coalesce(v: Option<Json>, d: Json): (r: Json)
    ensures v.Some? && v.value != JNull ==> r == v.value
    ensures v.None? || v.value == JNull ==> r == d
  {
    if v.Some? && v.value != JNull then v.value else d
  }

  /** The property read `v.key` for a named (non-index, non-`length`) key on a value that
      is not null: an own property of an object, `undefined` on anything else. */
  function Get(v: Json, key: string): (r: Option<Json>)
    ensures r.Some? <==> v.JObj? && key in v.fields
  {
    if v.JObj? && key in v.fields then Some(v.fields[key]) else None
  }

  /** `v?.key` on a value that may be null or undefined. */
  function GetOpt(v: Option<Json>, key: string): Option<Json> {
    if v.Some? then Get(v.value, key) else None
  }

  /** The elements an array is built from index by index: key "i" holds items[i]. */
  function Indexed(items: seq<Json>): (m: map<string, Json>)
    ensures |m.Keys| <= |items|
  {
    if items == [] then map[]
    else
      var front := Indexed(items[..|items| - 1]);
      var m := front[Text.NatToString(|items| - 1) := items[|items| - 1]];
      assert m.Keys <= front.Keys + {Text.NatToString(|items| - 1)};
      LemmaSubsetCard(m.Keys, front.Keys + {Text.NatToString(|items| - 1)});
      m
  }

  lemma LemmaSubsetCard<T>(a: set<T>, b: set<T>)
    requires a <= b
    ensures |a| <= |b|
  {
    assert b == a + (b - a);
  }

  /** The one-character strings of a string, in order. */
  function Chars(s: string): (r: seq<Json>)
    ensures |r| == |s|
    ensures forall i :: 0 <= i < |s| ==> r[i] == JStr([s[i]])
  {
    seq(|s|, i requires 0 <= i < |s| => JStr([s[i]]))
  }

  /** The own enumerable entries that the object spread `{ ...v }` copies: an object's
      properties, the characters of a string or the elements of an array under their index
      keys, and nothing for null, booleans and numbers. */
  function Spread(v: Json): map<string, Json> {
    match v
    case JObj(m) => m
    case JStr(s) => Indexed(Chars(s))
    case JArr(items) => Indexed(items)
    case _ => map[]
  }

  /** The array spread `[...v]`: the elements of an array or the characters of a string;
      None when v is not iterable (the spread throws a TypeError). */
  function IterSpread(v: Json): (r: Option<seq<Json>>)
    ensures r.Some? <==> v.JArr? || v.JStr?
  {
    match v
    case JArr(items) => Some(items)
    case JStr(s) => Some(Chars(s))
    case _ => None
  }

  // ---------------------------------------------------------------- arithmetic

  /** `Math.round` on a real: the nearest integer, halves rounded toward +infinity. */
  function Round(x: real): (k: int)
    ensures x - 0.5 < k as real <= x + 0.5
  {
    (x + 0.5).Floor
  }

  /** Truncation toward zero. */
  function Trunc(x: real): (k: int)
    ensures x >= 0.0 ==> 0 <= k && k as real <= x < k as real + 1.0
    ensures x < 0.0 ==> x <= k as real <= 0.0 && k as real - 1.0 < x
  {
    if x >= 0.0 then x.Floor else -((-x).Floor)
  }

  /** The JavaScript `x % 360` on numbers: the sign of the result follows the dividend. */
  function Mod360(x: real): (r: real)
    ensures x >= 0.0 ==> 0.0 <= r < 360.0
    ensures x < 0.0 ==> -360.0 < r <= 0.0
  {
    var k := Trunc(x / 360.0);
    x - 360.0 * k as real
  }

  /** The JavaScript `%` on integers with a positive divisor (truncating division). */
  function IntRem(a: int, m: int): (r: int)
    requires m > 0
    ensures a >= 0 ==> r == a % m
    ensures a < 0 ==> r == -((-a) % m)
  {
    if a >= 0 then a % m else -((-a) % m)
  }

  /** `Number(s)` for a string: surrounding whitespace is ignored, the empty string is 0,
      a decimal literal gives its value, anything else NaN. */
  function NumberOf(s: string): (r: Num)
    ensures Text.Trim(s) == [] ==> r == N(0.0)
  {
    var t := Text.Trim(s);
    if t == [] then N(0.0)
    else
      match Text.DecimalPrefix(t)
      case Some((v, len)) => if len == |t| then N(v) else NaN
      case None => NaN
  }

  /** `Number` of a run of digits is the run's decimal value. */
  lemma NumberOfDigits(ds: string)
    requires |ds| > 0 && Text.AllDigits(ds)
    ensures NumberOf(ds) == N(Text.DigitsValue(ds) as real)
  {
    assert Text.IsDigit(ds[0]) && Text.IsDigit(ds[|ds| - 1]);
    Text.TrimNoEdgeSpace(ds);
    Text.DecimalPrefixOfDigits(ds);
  }

  /** A number as a JSON value: NaN serialises as null. */
  function NumJson(n: Num): Json {
    match n
    case NaN => JNull
    case N(v) => JNum(v)
  }
}
