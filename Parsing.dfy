/** The value helpers of src/utils/parsing.js: trimmed text or null, the number inside a
    string of mixed characters, and the eight-point compass. Values arrive as strings
    (`String(value)` of a non-string is not modelled); None stands for null and undefined. */
module Parsing {
  import opened Wrappers
  import opened Text
  import Js
  import Conditions

  /** `textOrNull(value)`: the trimmed text, or null when nothing but whitespace is left. */
  function TextOrNull(value: Option<string>): (r: Option<string>)
    ensures r.None? <==> value.None? || Trim(value.value) == []
    ensures r.Some? ==> r.value == Trim(value.value) && !IsSpace(r.value[0]) && !IsSpace(r.value[|r.value| - 1])
  {
    if value.None? then None
    else
      var trimmed := Trim(value.value);
      TrimShape(value.value);
      if |trimmed| > 0 then Some(trimmed) else None
  }

  /** Applying textOrNull to its own result changes nothing. */
  lemma TextOrNullIdempotent(value: Option<string>)
    ensures TextOrNull(TextOrNull(value)) == TextOrNull(value)
  {
    if value.Some? {
      TrimIdempotent(value.value);
    }
  }

  /** The characters that `[^0-9.-]` does not remove. */
  predicate IsNumericChar(c: char) {
    IsDigit(c) || c == '.' || c == '-'
  }

  /** `s.replace(/[^0-9.-]/g, '')`: the digits, points and minus signs of `s`, in order. */
  function Clean(s: string): (r: string)
    ensures |r| <= |s|
    ensures forall i :: 0 <= i < |r| ==> IsNumericChar(r[i])
  {
    if s == [] then []
    else (if IsNumericChar(s[0]) then [s[0]] else []) + Clean(s[1..])
  }

  /** Cleaning distributes over concatenation. */
  lemma {:induction false} CleanConcat(s: string, t: string)
    ensures Clean(s + t) == Clean(s) + Clean(t)
  {
    if s == [] {
      assert s + t == t;
    } else {
      assert (s + t)[1..] == s[1..] + t;
      CleanConcat(s[1..], t);
    }
  }

  /** A string made only of digits, points and minus signs is left as it is. */
  lemma {:induction false} CleanKeepsNumericText(s: string)
    requires forall i :: 0 <= i < |s| ==> IsNumericChar(s[i])
    ensures Clean(s) == s
  {
    if s != [] {
      CleanKeepsNumericText(s[1..]);
    }
  }

  /** A string without digits, points or minus signs vanishes. */
  lemma {:induction false} CleanDropsText(s: string)
    requires forall i :: 0 <= i < |s| ==> !IsNumericChar(s[i])
    ensures Clean(s) == []
  {
    if s != [] {
      CleanDropsText(s[1..]);
    }
  }

  /** `numberOrNull(value)`: `parseFloat` of the cleaned text; the cleaned text has no
      whitespace, exponent or letters, so a parse that finds no number is NaN, which is
      null. Overflow of a very long digit string to Infinity (which is also null) is not
      modelled; see Js.NumberOf. */
  function NumberOrNull(value: Option<string>): (r: Option<real>)
    ensures value.None? ==> r.None?
    ensures value.Some? ==> (r.Some? <==> DecimalPrefix(Clean(value.value)).Some?)
  {
    if value.None? then None
    else
      match DecimalPrefix(Clean(value.value))
      case None => None
      case Some((x, _)) => Some(x)
  }

  /** Cleaning first does not change the number. */
  lemma NumberOrNullOfCleanText(s: string)
    ensures NumberOrNull(Some(Clean(s))) == NumberOrNull(Some(s))
  {
    CleanKeepsNumericText(Clean(s));
  }

  /** A reading such as "12 kt" or "72F": digits followed by text without digits, points or
      minus signs give the digits' value. */
  lemma NumberBeforeUnits(ds: string, unit: string)
    requires |ds| > 0 && AllDigits(ds)
    requires forall i :: 0 <= i < |unit| ==> !IsNumericChar(unit[i])
    ensures NumberOrNull(Some(ds + unit)) == Some(DigitsValue(ds) as real)
  {
    CleanConcat(ds, unit);
    CleanKeepsNumericText(ds);
    CleanDropsText(unit);
    assert Clean(ds + unit) == ds;
    DecimalPrefixOfDigits(ds);
  }

  /** A reading with a fraction, such as "72.5F" or ".5 in", gives the value of the digits
      on both sides of the point. */
  lemma FractionBeforeUnits(ds: string, fs: string, unit: string)
    requires AllDigits(ds) && AllDigits(fs) && |ds| + |fs| > 0
    requires forall i :: 0 <= i < |unit| ==> !IsNumericChar(unit[i])
    ensures NumberOrNull(Some(ds + "." + fs + unit)) == Some(DecimalValue(ds, fs))
  {
    CleanFraction(ds, fs, unit);
    DecimalPrefixOfFraction(ds, fs, []);
  }

  /** With a '-' in front, as in "-3.5 ft", the reading is negative. */
  lemma NegativeFractionBeforeUnits(ds: string, fs: string, unit: string)
    requires AllDigits(ds) && AllDigits(fs) && |ds| + |fs| > 0
    requires forall i :: 0 <= i < |unit| ==> !IsNumericChar(unit[i])
    ensures NumberOrNull(Some("-" + (ds + "." + fs + unit))) == Some(-DecimalValue(ds, fs))
  {
    CleanFraction(ds, fs, unit);
    NegativeDecimalPrefixOfFraction(ds, fs, []);
  }

  /** Cleaning `ds.fs` followed by a unit leaves `ds.fs`, with its sign. */
  lemma CleanFraction(ds: string, fs: string, unit: string)
    requires AllDigits(ds) && AllDigits(fs)
    requires forall i :: 0 <= i < |unit| ==> !IsNumericChar(unit[i])
    ensures Clean(ds + "." + fs + unit) == ds + "." + fs + []
    ensures Clean("-" + (ds + "." + fs + unit)) == "-" + (ds + "." + fs + [])
  {
    var number := ds + "." + fs;
    FractionIsNumeric(ds, fs);
    CleanKeepsNumericText(number);
    CleanDropsText(unit);
    CleanConcat(number, unit);
    CleanConcat("-", number + unit);
    assert number + [] == number;
  }

  /** `ds.fs` is made of characters that cleaning keeps. */
  lemma FractionIsNumeric(ds: string, fs: string)
    requires AllDigits(ds) && AllDigits(fs)
    ensures forall i :: 0 <= i < |ds + "." + fs| ==> IsNumericChar((ds + "." + fs)[i])
  {
    var number := ds + "." + fs;
    forall i | 0 <= i < |number| ensures IsNumericChar(number[i]) {
      if i < |ds| {
        assert number[i] == ds[i];
      } else if i > |ds| {
        assert number[i] == fs[i - |ds| - 1];
      }
    }
  }

  /** Text with no digits, points or minus signs is null. */
  lemma NoDigitsIsNull(s: string)
    requires forall i :: 0 <= i < |s| ==> !IsNumericChar(s[i])
    ensures NumberOrNull(Some(s)) == None
  {
    CleanDropsText(s);
  }

  /** The eight names of `toCardinalDirection`, clockwise from north. */
  const Compass8: seq<string> := ["N", "NE", "E", "SE", "S", "SW", "W", "NW"]

  /** `toCardinalDirection(degrees)`: null when there is no number; otherwise the point
      BearingDirection names for it. */
  function ToCardinalDirection(degrees: Option<string>): (r: Conditions.Direction)
    ensures r == Conditions.NullDirection <==> NumberOrNull(degrees).None?
    ensures NumberOrNull(degrees).Some? ==> r == BearingDirection(NumberOrNull(degrees).value)
  {
    match NumberOrNull(degrees)
    case None => Conditions.NullDirection
    case Some(x) => BearingDirection(x)
  }

  /** The nearest of the eight points to the bearing taken modulo 360. Remainders keep the
      sign of their operand, so a negative bearing more than half a sector west of north
      indexes before the table and gives undefined. */
  function BearingDirection(x: real): (r: Conditions.Direction)
    ensures r.Named? ==> r.name in Compass8
    ensures x >= 0.0 ==> r.Named?
    ensures r != Conditions.NullDirection
  {
    var index := Js.IntRem(Js.Round(Js.Mod360(x) / 45.0), 8);
    if 0 <= index then Conditions.Named(Compass8[index]) else Conditions.UndefinedDirection
  }

  /** A non-negative bearing is named by the sector it falls in: the k-th point covers
      22.5 degrees either side of 45k, and the last half sector below 360 is north again. */
  lemma SectorOfBearing(x: real, k: int)
    requires 0 <= k < 8
    requires var m := Js.Mod360(x);
      0.0 <= m && ((45.0 * k as real - 22.5 <= m < 45.0 * k as real + 22.5) || (k == 0 && 337.5 <= m))
    ensures BearingDirection(x) == Conditions.Named(Compass8[k])
  {
    var m := Js.Mod360(x);
    if x < 0.0 {
      assert m == 0.0;
    }
    var i := Js.Round(m / 45.0);
    if 337.5 <= m {
      assert i == 8;
      assert Js.IntRem(i, 8) == k;
    } else {
      assert i == k;
      assert Js.IntRem(i, 8) == k;
    }
  }

  /** A negative bearing more than half a sector west of north, and not within the last half
      sector before -360, has no name: "-90" is undefined, not "W". */
  lemma NegativeBearingIsUnnamed(x: real)
    requires -337.5 < x < -22.5
    ensures BearingDirection(x) == Conditions.UndefinedDirection
  {
    assert Js.Trunc(x / 360.0) == 0;
    assert Js.Mod360(x) == x;
    var i := Js.Round(x / 45.0);
    assert -7 <= i <= -1;
    assert Js.IntRem(i, 8) == i;
  }

  /** Bearings just below a full turn wrap to "N". */
  lemma NearlyFullCircleIsNorth(x: real)
    requires 337.5 <= x < 360.0
    ensures BearingDirection(x) == Conditions.Named("N")
  {
    assert Js.Trunc(x / 360.0) == 0;
    SectorOfBearing(x, 0);
  }
}
