/** String helpers with JavaScript's meaning: the whitespace set of `trim()` and `\s`,
    `trim`, the case mappings the lookups depend on, digits and decimal literals. */
module Text {
  import opened Wrappers

  /** JavaScript WhiteSpace and LineTerminator characters (what `trim()` strips and `\s` matches). */
  predicate IsSpace(c: char) {
    c == ' ' || c == '\t' || c == '\n' || c == '\r' || c == '\U{000B}' || c == '\U{000C}'
    || c == '\U{00A0}' || c == '\U{1680}' || ('\U{2000}' <= c <= '\U{200A}')
    || c == '\U{2028}' || c == '\U{2029}' || c == '\U{202F}' || c == '\U{205F}'
    || c == '\U{3000}' || c == '\U{FEFF}'
  }

  /** JavaScript line terminators (what `.` in a regular expression does not match). */
  predicate IsLineTerminator(c: char) {
    c == '\n' || c == '\r' || c == '\U{2028}' || c == '\U{2029}'
  }

  predicate IsDigit(c: char) { '0' <= c <= '9' }

  /** `\w` in a JavaScript regular expression without the `u` flag. */
  predicate IsWordChar(c: char) {
    ('a' <= c <= 'z') || ('A' <= c <= 'Z') || IsDigit(c) || c == '_'
  }

  predicate AllDigits(s: string) { forall i :: 0 <= i < |s| ==> IsDigit(s[i]) }

  /** `String.prototype.trimStart`: drops the leading whitespace and nothing else. */
  function TrimStart(s: string): (r: string)
    ensures |r| <= |s| && r == s[|s| - |r|..]
    ensures forall i :: 0 <= i < |s| - |r| ==> IsSpace(s[i])
    ensures r == [] || !IsSpace(r[0])
  {
    s[LeadingSpaces(s)..]
  }

  /** The number of whitespace characters at the start of s. */
  function LeadingSpaces(s: string): (n: nat)
    ensures n <= |s|
    ensures forall i :: 0 <= i < n ==> IsSpace(s[i])
    ensures n < |s| ==> !IsSpace(s[n])
  {
    if s != [] && IsSpace(s[0]) then 1 + LeadingSpaces(s[1..]) else 0
  }

  /** `String.prototype.trimEnd`: drops the trailing whitespace and nothing else. */
  function TrimEnd(s: string): (r: string)
    ensures |r| <= |s| && r == s[..|r|]
    ensures forall i :: |r| <= i < |s| ==> IsSpace(s[i])
    ensures r == [] || !IsSpace(r[|r| - 1])
  {
    s[..|s| - TrailingSpaces(s)]
  }

  /** The number of whitespace characters at the end of s. */
  function TrailingSpaces(s: string): (n: nat)
    ensures n <= |s|
    ensures forall i :: |s| - n <= i < |s| ==> IsSpace(s[i])
    ensures n < |s| ==> !IsSpace(s[|s| - n - 1])
  {
    if s != [] && IsSpace(s[|s| - 1]) then 1 + TrailingSpaces(s[..|s| - 1]) else 0
  }

  /** `String.prototype.trim`. */
  function Trim(s: string): string {
    TrimEnd(TrimStart(s))
  }

  /** Trim returns the middle of its input: no edge whitespace, and only whitespace removed
      on either side (k is the number of characters dropped at the front). */
  lemma TrimShape(s: string)
    ensures var r, k := Trim(s), |s| - |TrimStart(s)|;
      && (r == [] || (!IsSpace(r[0]) && !IsSpace(r[|r| - 1])))
      && 0 <= k && k + |r| <= |s| && r == s[k..k + |r|]
      && (forall i :: 0 <= i < k ==> IsSpace(s[i]))
      && (forall i :: k + |r| <= i < |s| ==> IsSpace(s[i]))
  {
    var t := TrimStart(s);
    var r := TrimEnd(t);
    assert Trim(s) == r;
    MiddleShape(s, t, r);
  }

  /** The shape of a trim, stated of any t and r that have what TrimStart and TrimEnd
      promise of their results. */
  lemma MiddleShape(s: string, t: string, r: string)
    requires |t| <= |s| && t == s[|s| - |t|..] && (t == [] || !IsSpace(t[0]))
    requires forall i :: 0 <= i < |s| - |t| ==> IsSpace(s[i])
    requires |r| <= |t| && r == t[..|r|] && (r == [] || !IsSpace(r[|r| - 1]))
    requires forall i :: |r| <= i < |t| ==> IsSpace(t[i])
    ensures var k := |s| - |t|;
      && (r == [] || (!IsSpace(r[0]) && !IsSpace(r[|r| - 1])))
      && 0 <= k && k + |r| <= |s| && r == s[k..k + |r|]
      && (forall i :: 0 <= i < k ==> IsSpace(s[i]))
      && (forall i :: k + |r| <= i < |s| ==> IsSpace(s[i]))
  {
    TrimmedTail(s, t, r, |s| - |t|);
    if r != [] {
      assert t[0] == r[0];
    }
  }

  /** Trim returns a slice of its input with no whitespace at either edge. */
  lemma TrimSlice(s: string) returns (k: nat)
    ensures k + |Trim(s)| <= |s| && Trim(s) == s[k..k + |Trim(s)|]
    ensures Trim(s) == [] || (!IsSpace(Trim(s)[0]) && !IsSpace(Trim(s)[|Trim(s)| - 1]))
  {
    var t := TrimStart(s);
    var r := TrimEnd(t);
    k := |s| - |t|;
    assert t == s[k..] && r == t[..|r|];
    if r != [] {
      assert r[0] == t[0];
    }
  }

  /** The positions of s after the kept middle are the positions of t after r. */
  lemma TrimmedTail(s: string, t: string, r: string, k: nat)
    requires k <= |s| && t == s[k..]
    requires |r| <= |t| && r == t[..|r|]
    requires forall i :: |r| <= i < |t| ==> IsSpace(t[i])
    ensures r == s[k..k + |r|]
    ensures forall i :: k + |r| <= i < |s| ==> IsSpace(s[i])
  {
    forall i | k + |r| <= i < |s| ensures IsSpace(s[i]) {
      assert s[i] == t[i - k];
    }
  }

  /** A string without whitespace at either end is its own trim. */
  lemma TrimNoEdgeSpace(s: string)
    requires s == [] || (!IsSpace(s[0]) && !IsSpace(s[|s| - 1]))
    ensures Trim(s) == s
  {}

  /** Trimming twice is trimming once. */
  lemma TrimIdempotent(s: string)
    ensures Trim(Trim(s)) == Trim(s)
  {
    TrimShape(s);
    TrimNoEdgeSpace(Trim(s));
  }

  /** The JavaScript upper case of one character: a-z, and the sharp s, the long s and the
      dotless i, whose upper case is ASCII. Every other character is kept as it is; the
      other mappings of toUpperCase, including ligatures whose upper case holds ASCII
      letters, are not modelled. */
  function UpperChar(c: char): (r: string)
    ensures 1 <= |r| <= 2
  {
    if 'a' <= c <= 'z' then [(c as int - 32) as char]
    else if c == '\U{00DF}' then "SS"        // sharp s
    else if c == '\U{017F}' then "S"         // long s
    else if c == '\U{0131}' then "I"         // dotless i
    else [c]
  }

  /** `String.prototype.toUpperCase` (see UpperChar). */
  function ToUpper(s: string): (r: string)
    ensures |r| >= |s|
  {
    if s == [] then [] else UpperChar(s[0]) + ToUpper(s[1..])
  }

  /** The JavaScript lower case of one character: A-Z, and the Kelvin sign, whose lower
      case is 'k'. Every other character is kept as it is; the other mappings of
      toLowerCase (such as U+0130, whose lower case is two characters) are not modelled. */
  function LowerChar(c: char): (r: char)
    ensures 'A' <= r <= 'Z' ==> !('A' <= c <= 'Z') && r == c
  {
    if 'A' <= c <= 'Z' then (c as int + 32) as char
    else if c == '\U{212A}' then 'k'
    else c
  }

  /** How a regular expression with the `i` flag and without the `u` flag compares a
      character (Canonicalize): by its upper case, which never turns a non-ASCII character
      into an ASCII one. Only the ASCII letters are folded here; non-ASCII characters are
      compared as they are. */
  function RegexFold(c: char): (r: char)
    ensures (r as int < 128) <==> (c as int < 128)
    ensures !('a' <= r <= 'z')
  {
    if 'a' <= c <= 'z' then (c as int - 32) as char else c
  }

  /** `String.prototype.toLowerCase` (see LowerChar). */
  function ToLower(s: string): (r: string)
    ensures |r| == |s|
    ensures forall i :: 0 <= i < |s| ==> r[i] == LowerChar(s[i])
  {
    seq(|s|, i requires 0 <= i < |s| => LowerChar(s[i]))
  }

  lemma ToLowerIdempotent(s: string)
    ensures ToLower(ToLower(s)) == ToLower(s)
  {}

  /** `s` occurs in `t` at position k. */
  predicate OccursAt(s: string, t: string, k: int) {
    0 <= k && k + |s| <= |t| && t[k..k + |s|] == s
  }

  /** `t.includes(s)`, by scanning `t` from the left. */
  predicate Contains(t: string, s: string)
    decreases |t|
  {
    |s| <= |t| && (t[..|s|] == s || Contains(t[1..], s))
  }

  /** Contains holds exactly when `s` occurs somewhere in `t`. */
  lemma {:induction false} ContainsIff(t: string, s: string)
    ensures Contains(t, s) <==> exists k {:trigger OccursAt(s, t, k)} :: OccursAt(s, t, k)
    decreases |t|
  {
    if |s| <= |t| {
      if t[..|s|] == s {
        assert OccursAt(s, t, 0);
      } else {
        ContainsIff(t[1..], s);
        if exists k {:trigger OccursAt(s, t[1..], k)} :: OccursAt(s, t[1..], k) {
          var k :| OccursAt(s, t[1..], k);
          assert t[1..][k..k + |s|] == t[k + 1..k + 1 + |s|];
          assert OccursAt(s, t, k + 1);
        }
        if exists k {:trigger OccursAt(s, t, k)} :: OccursAt(s, t, k) {
          var k :| OccursAt(s, t, k);
          assert k != 0;
          assert t[1..][k - 1..k - 1 + |s|] == t[k..k + |s|];
          assert OccursAt(s, t[1..], k - 1);
        }
      }
    }
  }

  // ---------------------------------------------------------------- decimals

  function DigitValue(c: char): nat
    requires IsDigit(c)
  {
    c as int - '0' as int
  }

  /** The value of a run of decimal digits. */
  function DigitsValue(ds: string): nat
    requires AllDigits(ds)
  {
    if ds == [] then 0 else DigitsValue(ds[..|ds| - 1]) * 10 + DigitValue(ds[|ds| - 1])
  }

  function Pow10(n: nat): (r: nat)
    ensures r >= 1
  {
    if n == 0 then 1 else 10 * Pow10(n - 1)
  }

  /** 10 to an integer power, as a real. */
  function Pow10Real(e: int): (r: real)
    ensures r > 0.0
  {
    if e >= 0 then Pow10(e) as real else 1.0 / (Pow10(-e) as real)
  }

  /** The number of leading decimal digits of `s`. */
  function LeadingDigits(s: string): (n: nat)
    ensures n <= |s| && AllDigits(s[..n])
    ensures n < |s| ==> !IsDigit(s[n])
  {
    if s != [] && IsDigit(s[0]) then
      var m := LeadingDigits(s[1..]);
      assert s[..1 + m] == [s[0]] + s[1..][..m];
      1 + m
    else 0
  }

  /** `int.to_string`: the decimal rendering of a natural number. */
  function NatToString(n: nat): (r: string)
    ensures |r| >= 1 && AllDigits(r)
    ensures DigitsValue(r) == n
  {
    var last := [('0' as int + n % 10) as char];
    if n < 10 then
      assert DigitsValue(last) == DigitsValue(last[..0]) * 10 + DigitValue(last[0]);
      last
    else
      var front := NatToString(n / 10);
      var r := front + last;
      assert r[..|r| - 1] == front;
      r
  }

  /** A mantissa `digits [. digits]` or `. digits` at the start of `s`, as (value, length). */
  function Mantissa(s: string): (r: Option<(real, nat)>)
    ensures r.Some? ==> 0 < r.value.1 <= |s|
  {
    var a := LeadingDigits(s);
    var intValue := DigitsValue(s[..a]) as real;
    if a < |s| && s[a] == '.' then
      var b := LeadingDigits(s[a + 1..]);
      var frac := s[a + 1..][..b];
      if a + b == 0 then None
      else Some((intValue + DigitsValue(frac) as real / Pow10(b) as real, a + 1 + b))
    else if a == 0 then None
    else Some((intValue, a))
  }

  /** An exponent `[eE] [+-]? digits` at the start of `s`, as (exponent, length). */
  function Exponent(s: string): (r: Option<(int, nat)>)
    ensures r.Some? ==> 1 < r.value.1 <= |s|
  {
    if s != [] && (s[0] == 'e' || s[0] == 'E') then
      var signLen := if |s| > 1 && (s[1] == '+' || s[1] == '-') then 1 else 0;
      var ds := LeadingDigits(s[1 + signLen..]);
      if ds == 0 then None
      else
        var v := DigitsValue(s[1 + signLen..][..ds]);
        Some((if signLen == 1 && s[1] == '-' then -(v as int) else v, 1 + signLen + ds))
    else None
  }

  /** The longest prefix of `s` that is a decimal literal `[+-]? mantissa exponent?`,
      as (value, length) — what `parseFloat` reads after leading whitespace. */
  function DecimalPrefix(s: string): (r: Option<(real, nat)>)
    ensures r.Some? ==> 0 < r.value.1 <= |s|
  {
    if s != [] && (s[0] == '+' || s[0] == '-') then
      match UnsignedPrefix(s[1..])
      case None => None
      case Some((value, len)) => Some((if s[0] == '-' then -value else value, 1 + len))
    else UnsignedPrefix(s)
  }

  /** The longest prefix of `s` that is `mantissa exponent?`, as (value, length). */
  function UnsignedPrefix(s: string): (r: Option<(real, nat)>)
    ensures r.Some? ==> 0 < r.value.1 <= |s|
  {
    match Mantissa(s)
    case None => None
    case Some((m, mLen)) => Some(WithExponent(m, mLen, s[mLen..]))
  }

  /** A mantissa of value m and length mLen, scaled by the exponent that `rest` starts
      with, if any; as (value, length of mantissa and exponent). */
  function WithExponent(m: real, mLen: nat, rest: string): (r: (real, nat))
    ensures mLen <= r.1 <= mLen + |rest|
    ensures Exponent(rest).None? ==> r == (m, mLen)
  {
    match Exponent(rest)
    case Some((e, eLen)) => (m * Pow10Real(e), mLen + eLen)
    case None => (m, mLen)
  }

  /** A run of digits is a mantissa that spans it. */
  lemma MantissaOfDigits(ds: string)
    requires |ds| > 0 && AllDigits(ds)
    ensures Mantissa(ds) == Some((DigitsValue(ds) as real, |ds|))
  {
    var k := LeadingDigits(ds);
    assert k == |ds|;
    assert ds[..|ds|] == ds;
  }

  /** A run of digits is a decimal literal that spans it, with the run's value. */
  lemma DecimalPrefixOfDigits(ds: string)
    requires |ds| > 0 && AllDigits(ds)
    ensures DecimalPrefix(ds) == Some((DigitsValue(ds) as real, |ds|))
  {
    MantissaOfDigits(ds);
    assert ds[|ds|..] == [];
    UnsignedDecimalPrefix(ds, DigitsValue(ds) as real, |ds|);
  }

  /** The value of the decimal literal `ds.fs`. */
  function DecimalValue(ds: string, fs: string): real
    requires AllDigits(ds) && AllDigits(fs)
  {
    DigitsValue(ds) as real + DigitsValue(fs) as real / Pow10(|fs|) as real
  }

  /** n digits are worth less than 10^n. */
  lemma {:induction false} DigitsBelowPow10(ds: string)
    requires AllDigits(ds)
    ensures DigitsValue(ds) < Pow10(|ds|)
  {
    if ds != [] {
      var front := ds[..|ds| - 1];
      DigitsBelowPow10(front);
      assert DigitsValue(front) + 1 <= Pow10(|front|);
      assert DigitsValue(ds) < (DigitsValue(front) + 1) * 10;
    }
  }

  /** The fraction of `ds.fs` is below one: the literal lies between ds and ds + 1. */
  lemma DecimalValueBounds(ds: string, fs: string)
    requires AllDigits(ds) && AllDigits(fs)
    ensures DigitsValue(ds) as real <= DecimalValue(ds, fs) < DigitsValue(ds) as real + 1.0
  {
    DigitsBelowPow10(fs);
    QuotientBelowOne(DigitsValue(fs) as real, Pow10(|fs|) as real);
  }

  lemma QuotientBelowOne(x: real, p: real)
    requires 0.0 <= x < p
    ensures 0.0 <= x / p < 1.0
  {
    assert x / p * p == x;
  }

  /** The digits at the front of `ds + rest` are those of ds when rest does not start with one. */
  lemma {:induction false} LeadingDigitsOfRun(ds: string, rest: string)
    requires AllDigits(ds) && (rest == [] || !IsDigit(rest[0]))
    ensures LeadingDigits(ds + rest) == |ds|
  {
    if ds != [] {
      assert (ds + rest)[1..] == ds[1..] + rest;
      LeadingDigitsOfRun(ds[1..], rest);
    }
  }

  /** `ds.fs` followed by anything but a digit is a mantissa with the literal's value
      (either run may be empty, but not both). */
  lemma MantissaOfFraction(ds: string, fs: string, rest: string)
    requires AllDigits(ds) && AllDigits(fs) && |ds| + |fs| > 0
    requires rest == [] || !IsDigit(rest[0])
    ensures Mantissa(ds + "." + fs + rest) == Some((DecimalValue(ds, fs), |ds| + 1 + |fs|))
  {
    var s := ds + "." + fs + rest;
    PointText(ds, fs, rest);
    LeadingDigitsOfRun(ds, "." + fs + rest);
    LeadingDigitsOfRun(fs, rest);
    MantissaWithPoint(s, ds, fs);
  }

  /** Where the parts of `ds.fs` followed by rest lie. */
  lemma PointText(ds: string, fs: string, rest: string)
    ensures var s := ds + "." + fs + rest;
      && s == ds + ("." + fs + rest) && s[..|ds|] == ds && s[|ds|] == '.'
      && s[|ds| + 1..] == fs + rest && (fs + rest)[..|fs|] == fs
      && s[|ds| + 1 + |fs|..] == rest && (|fs| > 0 ==> s[|ds| + 1] == fs[0])
  {
  }

  /** A mantissa whose whole digits are ds and whose fraction digits are fs. */
  lemma MantissaWithPoint(s: string, ds: string, fs: string)
    requires AllDigits(ds) && AllDigits(fs) && |ds| + |fs| > 0
    requires LeadingDigits(s) == |ds| && |ds| < |s| && s[..|ds|] == ds && s[|ds|] == '.'
    requires LeadingDigits(s[|ds| + 1..]) == |fs| && s[|ds| + 1..][..|fs|] == fs
    ensures Mantissa(s) == Some((DecimalValue(ds, fs), |ds| + 1 + |fs|))
  {
  }

  /** `ds.fs` followed by neither a digit nor an exponent is a decimal literal with the
      value of `ds.fs`. */
  lemma DecimalPrefixOfFraction(ds: string, fs: string, rest: string)
    requires AllDigits(ds) && AllDigits(fs) && |ds| + |fs| > 0
    requires rest == [] || (!IsDigit(rest[0]) && rest[0] != 'e' && rest[0] != 'E')
    ensures DecimalPrefix(ds + "." + fs + rest) == Some((DecimalValue(ds, fs), |ds| + 1 + |fs|))
  {
    var s := ds + "." + fs + rest;
    MantissaOfFraction(ds, fs, rest);
    FractionText(ds, fs, rest);
    UnsignedFraction(s, DecimalValue(ds, fs), |ds| + 1 + |fs|);
  }

  /** With a '-' in front, the literal is negative. */
  lemma NegativeDecimalPrefixOfFraction(ds: string, fs: string, rest: string)
    requires AllDigits(ds) && AllDigits(fs) && |ds| + |fs| > 0
    requires rest == [] || (!IsDigit(rest[0]) && rest[0] != 'e' && rest[0] != 'E')
    ensures DecimalPrefix("-" + (ds + "." + fs + rest)) == Some((-DecimalValue(ds, fs), |ds| + 2 + |fs|))
  {
    var s := ds + "." + fs + rest;
    DecimalPrefixOfFraction(ds, fs, rest);
    FractionIsUnsigned(ds, fs, rest);
    MinusNegates(s);
  }

  /** `ds.fs` does not start with a sign. */
  lemma FractionIsUnsigned(ds: string, fs: string, rest: string)
    requires AllDigits(ds)
    ensures var s := ds + "." + fs + rest; s != [] && s[0] != '+' && s[0] != '-'
  {
    var s := ds + "." + fs + rest;
    assert s[0] == if ds == [] then '.' else ds[0];
  }

  /** Where the parts of `ds.fs` followed by rest lie. */
  lemma FractionText(ds: string, fs: string, rest: string)
    requires AllDigits(ds)
    ensures var s := ds + "." + fs + rest;
      && s[..|ds|] == ds && s[|ds|] == '.' && s[|ds| + 1 + |fs|..] == rest
      && s[0] != '+' && s[0] != '-'
  {
    FractionIsUnsigned(ds, fs, rest);
  }

  /** An unsigned mantissa followed by neither a digit nor an exponent is the literal. */
  lemma UnsignedFraction(s: string, m: real, n: nat)
    requires s != [] && s[0] != '+' && s[0] != '-'
    requires Mantissa(s) == Some((m, n)) && n <= |s|
    requires s[n..] == [] || (!IsDigit(s[n]) && s[n] != 'e' && s[n] != 'E')
    ensures DecimalPrefix(s) == Some((m, n))
  {
    UnsignedDecimalPrefix(s, m, n);
  }

  /** A '-' in front of an unsigned literal negates it and adds one to its length. */
  lemma MinusNegates(s: string)
    requires s == [] || (s[0] != '+' && s[0] != '-')
    ensures DecimalPrefix(s).None? ==> DecimalPrefix("-" + s).None?
    ensures DecimalPrefix(s).Some? ==>
      DecimalPrefix("-" + s) == Some((-DecimalPrefix(s).value.0, DecimalPrefix(s).value.1 + 1))
  {
    var t := "-" + s;
    assert t[0] == '-' && t[1..] == s;
    assert DecimalPrefix(s) == UnsignedPrefix(s);
  }

  /** Without a sign and without an exponent, the literal is the mantissa. */
  lemma UnsignedDecimalPrefix(s: string, m: real, mLen: nat)
    requires s != [] && s[0] != '+' && s[0] != '-'
    requires Mantissa(s) == Some((m, mLen)) && Exponent(s[mLen..]).None?
    ensures DecimalPrefix(s) == Some((m, mLen))
  {
    assert s[0..] == s;
  }
}
