/** The label helpers of index.js, which read the latest readings off a monitoring page:
    the text after the first label that has some, and the first number in that text.
    A label is matched as literal text (labels holding regular-expression metacharacters
    are not modelled), ignoring case as the `i` flag does for ASCII letters; non-ASCII
    letters are compared exactly (see Text.RegexFold). */
module LabelScan {
  import opened Wrappers
  import opened Text
  import NoaaWeather
  import Conditions

  /** `label` occurs at p, ignoring case. */
  predicate LabelAt(s: string, key: string, p: nat) {
    p + |key| <= |s| && NoaaWeather.EqualsIgnoringCase(s[p..p + |key|], key)
  }

  /** The leftmost occurrence of `label` at or after p, which is where the regular
      expression matches: everything after the label can match the empty string. */
  function FindFrom(s: string, key: string, p: nat): (r: Option<nat>)
    requires p <= |s|
    ensures r.Some? ==> p <= r.value <= |s| && LabelAt(s, key, r.value)
    ensures r.Some? ==> forall j :: p <= j < r.value ==> !LabelAt(s, key, j)
    ensures r.None? ==> forall j :: p <= j <= |s| ==> !LabelAt(s, key, j)
    decreases |s| - p
  {
    if LabelAt(s, key, p) then Some(p)
    else if p == |s| then None
    else FindFrom(s, key, p + 1)
  }

  /** Characters the capture `[^\n<]` takes. */
  predicate IsCaptureChar(c: char) {
    c != '\n' && c != '<'
  }

  /** The length of the `[^\n<]*` run at p. */
  function CaptureLength(s: string, p: nat): (n: nat)
    requires p <= |s|
    ensures p + n <= |s|
    ensures forall j :: p <= j < p + n ==> IsCaptureChar(s[j])
    ensures p + n < |s| ==> !IsCaptureChar(s[p + n])
    decreases |s| - p
  {
    if p < |s| && IsCaptureChar(s[p]) then 1 + CaptureLength(s, p + 1) else 0
  }

  /** Where the capture starts after a label ending at q: `\s*`, an optional ':', `\s*`,
      each greedy. */
  function CaptureStart(s: string, q: nat): (c: nat)
    requires q <= |s|
    ensures q <= c <= |s|
  {
    var a := q + NoaaWeather.SpaceRunLength(s, q);
    var b := if a < |s| && s[a] == ':' then a + 1 else a;
    b + NoaaWeather.SpaceRunLength(s, b)
  }

  /** Text that `\s*:?\s*` matches: whitespace with at most one ':' among it. */
  predicate IsSeparator(t: string) {
    && (forall i :: 0 <= i < |t| ==> IsSpace(t[i]) || t[i] == ':')
    && (forall i, j :: 0 <= i < j < |t| && t[i] == ':' ==> t[j] != ':')
  }

  /** The capture starts after the longest separator that follows the label: the group
      after it can match the empty text, so the greedy quantifiers never give anything
      back. */
  lemma CaptureStartSpec(s: string, q: nat)
    requires q <= |s|
    ensures IsSeparator(s[q..CaptureStart(s, q)])
    ensures forall e :: CaptureStart(s, q) < e <= |s| ==> !IsSeparator(s[q..e])
  {
    var a := q + NoaaWeather.SpaceRunLength(s, q);
    var b := if a < |s| && s[a] == ':' then a + 1 else a;
    var c := CaptureStart(s, q);
    assert c == b + NoaaWeather.SpaceRunLength(s, b);
    SeparatorShape(s, q, a, b, c);
  }

  /** Spaces from q to a, an optional ':' from a to b, spaces from b to c, and c where
      neither run could go on, make the longest separator from q. */
  lemma SeparatorShape(s: string, q: nat, a: nat, b: nat, c: nat)
    requires q <= a <= b <= c <= |s|
    requires forall j :: q <= j < a ==> IsSpace(s[j])
    requires a < |s| ==> !IsSpace(s[a])
    requires b == a || (b == a + 1 && s[a] == ':')
    requires b == a ==> a == |s| || s[a] != ':'
    requires forall j :: b <= j < c ==> IsSpace(s[j])
    requires c < |s| ==> !IsSpace(s[c])
    ensures IsSeparator(s[q..c])
    ensures forall e :: c < e <= |s| ==> !IsSeparator(s[q..e])
  {
    var t := s[q..c];
    forall i | 0 <= i < |t| ensures IsSpace(t[i]) || t[i] == ':' {
      assert t[i] == s[q + i];
    }
    forall i, j | 0 <= i < j < |t| && t[i] == ':' ensures t[j] != ':' {
      assert t[i] == s[q + i] && t[j] == s[q + j];
    }
    forall e | c < e <= |s| ensures !IsSeparator(s[q..e]) {
      var u := s[q..e];
      assert u[c - q] == s[c];
      if s[c] == ':' {
        assert b == a + 1 && u[a - q] == s[a];
      }
    }
  }

  /** `match[1]` of the label followed by `\s*:?\s*([^\n<]*)`, ignoring case: None when the
      label does not occur. */
  function LabelCapture(s: string, key: string): (r: Option<string>)
    ensures r.None? <==> forall j :: 0 <= j <= |s| ==> !LabelAt(s, key, j)
    ensures r.Some? ==> forall i :: 0 <= i < |r.value| ==> IsCaptureChar(r.value[i])
  {
    CaptureFor(s, FindFrom(s, key, 0), |key|)
  }

  /** The capture after a match at m of a label n characters long. */
  function CaptureFor(s: string, m: Option<nat>, n: nat): (r: Option<string>)
    requires m.Some? ==> m.value + n <= |s|
    ensures r.Some? <==> m.Some?
  {
    match m
    case None => None
    case Some(p) => Some(CaptureAfter(s, p + n))
  }

  /** The capture group for a label that ends at q: the longest run without a line feed
      or '<' after the separator. */
  function CaptureAfter(s: string, q: nat): (r: string)
    requires q <= |s|
    ensures forall i :: 0 <= i < |r| ==> IsCaptureChar(r[i])
    ensures var c := CaptureStart(s, q); c + |r| <= |s| && r == s[c..c + |r|]
    ensures var c := CaptureStart(s, q); c + |r| == |s| || !IsCaptureChar(s[c + |r|])
  {
    var c := CaptureStart(s, q);
    var n := CaptureLength(s, c);
    var capture := s[c..c + n];
    assert forall i :: 0 <= i < |capture| ==> capture[i] == s[c + i];
    capture
  }

  /** What one label yields: its capture trimmed, when that is not empty. */
  function Yield(s: string, key: string): (r: Option<string>)
    ensures r.Some? ==> r.value != []
  {
    match LabelCapture(s, key)
    case None => None
    case Some(capture) => if capture != [] && Trim(capture) != [] then Some(Trim(capture)) else None
  }

  /** A label yields exactly when it matches and its capture is not all whitespace, and
      then it yields the trimmed capture. */
  lemma YieldSpec(s: string, key: string)
    ensures Yield(s, key).Some? <==> LabelCapture(s, key).Some? && Trim(LabelCapture(s, key).value) != []
    ensures Yield(s, key).Some? ==> Yield(s, key).value == Trim(LabelCapture(s, key).value)
  {
    match LabelCapture(s, key)
    case None =>
    case Some(capture) =>
  }

  /** `extractTextAfterLabel(pageText, labels)`: the labels are tried in order and the first
      one that yields text gives the result; null when none does. */
  function ExtractTextAfterLabel(s: string, labels: seq<string>): (r: Option<string>)
    ensures r.None? <==> forall i :: 0 <= i < |labels| ==> Yield(s, labels[i]).None?
    ensures r.Some? ==> exists i :: 0 <= i < |labels| && r == Yield(s, labels[i])
    ensures r.Some? ==> r.value != []
  {
    if labels == [] then None
    else
      match Yield(s, labels[0])
      case Some(text) => Some(text)
      case None =>
        var rest := ExtractTextAfterLabel(s, labels[1..]);
        assert forall k :: 0 <= k < |labels| - 1 ==> labels[1..][k] == labels[k + 1];
        rest
  }

  /** A label that yields nothing is passed over. */
  lemma SilentLabelIsSkipped(s: string, labels: seq<string>)
    requires labels != [] && Yield(s, labels[0]).None?
    ensures ExtractTextAfterLabel(s, labels) == ExtractTextAfterLabel(s, labels[1..])
  {
  }

  /** The label tried first wins: the result is the yield of the first label that yields. */
  lemma {:induction false} FirstYieldingLabelWins(s: string, labels: seq<string>, i: nat)
    requires i < |labels| && Yield(s, labels[i]).Some?
    requires forall j :: 0 <= j < i ==> Yield(s, labels[j]).None?
    ensures ExtractTextAfterLabel(s, labels) == Yield(s, labels[i])
  {
    if i > 0 {
      var rest := labels[1..];
      assert rest[i - 1] == labels[i];
      forall j | 0 <= j < i - 1
        ensures Yield(s, rest[j]).None?
      {
        assert rest[j] == labels[j + 1];
      }
      SilentLabelIsSkipped(s, labels);
      FirstYieldingLabelWins(s, rest, i - 1);
    }
  }

  /** One clean line: no whitespace at either end, neither a line feed nor a '<'. */
  predicate CleanLine(t: string) {
    t != [] && !IsSpace(t[0]) && !IsSpace(t[|t| - 1]) && forall i :: 0 <= i < |t| ==> IsCaptureChar(t[i])
  }

  /** Trimming a capture that is not all whitespace leaves one clean line. */
  lemma TrimmedCaptureIsCleanLine(capture: string)
    requires forall i :: 0 <= i < |capture| ==> IsCaptureChar(capture[i])
    requires Trim(capture) != []
    ensures CleanLine(Trim(capture))
  {
    var k := TrimSlice(capture);
    CaptureSlice(capture, Trim(capture), k);
  }

  /** A slice of a capture is made of capture characters. */
  lemma CaptureSlice(capture: string, t: string, k: nat)
    requires k + |t| <= |capture| && t == capture[k..k + |t|]
    requires forall i :: 0 <= i < |capture| ==> IsCaptureChar(capture[i])
    ensures forall j :: 0 <= j < |t| ==> IsCaptureChar(t[j])
  {
    forall j | 0 <= j < |t| ensures IsCaptureChar(t[j]) {
      assert t[j] == capture[k + j];
    }
  }

  /** What a label yields is one clean line. */
  lemma YieldIsCleanLine(s: string, key: string)
    requires Yield(s, key).Some?
    ensures CleanLine(Yield(s, key).value)
  {
    YieldSpec(s, key);
    TrimmedCaptureIsCleanLine(LabelCapture(s, key).value);
  }

  /** The extracted text is one clean line. */
  lemma ExtractedTextIsOneCleanLine(s: string, labels: seq<string>)
    requires ExtractTextAfterLabel(s, labels).Some?
    ensures CleanLine(ExtractTextAfterLabel(s, labels).value)
  {
    var i :| 0 <= i < |labels| && ExtractTextAfterLabel(s, labels) == Yield(s, labels[i]);
    YieldIsCleanLine(s, labels[i]);
  }

  /** A labelled line such as "Water Temp: 72.5 F", followed by a line feed, a tag or the
      end of the page, yields the text after the colon and the whitespace, trimmed. */
  lemma LabelledLineYields(key: string, sp: string, v: string, rest: string)
    requires forall i :: 0 <= i < |sp| ==> IsSpace(sp[i])
    requires v != [] && !IsSpace(v[0]) && forall i :: 0 <= i < |v| ==> IsCaptureChar(v[i])
    requires rest == [] || !IsCaptureChar(rest[0])
    ensures ExtractTextAfterLabel(key + ":" + sp + v + rest, [key]) == Some(Trim(v))
  {
    var s := key + ":" + sp + v + rest;
    LineText(key, sp, v, rest);
    LineCapture(s, key, sp, v);
    TrimShape(v);
    assert Yield(s, key) == Some(Trim(v));
    FirstYieldingLabelWins(s, [key], 0);
  }

  /** Where the parts of a labelled line lie. */
  lemma LineText(key: string, sp: string, v: string, rest: string)
    ensures var s, c := key + ":" + sp + v + rest, |key| + 1 + |sp|;
      && |s| == c + |v| + |rest| && s[..|key|] == key && s[|key|] == ':'
      && (forall j :: 0 <= j < |sp| ==> s[|key| + 1 + j] == sp[j])
      && s[c..c + |v|] == v && (forall j :: 0 <= j < |v| ==> s[c + j] == v[j])
      && (rest != [] ==> s[c + |v|] == rest[0])
  {
  }

  /** The label at the start of s, a ':', whitespace sp and a line v that ends where s does
      or before a character the capture stops at: the capture is v. */
  lemma LineCapture(s: string, key: string, sp: string, v: string)
    requires forall i :: 0 <= i < |sp| ==> IsSpace(sp[i])
    requires v != [] && !IsSpace(v[0]) && forall i :: 0 <= i < |v| ==> IsCaptureChar(v[i])
    requires var c := |key| + 1 + |sp|;
      && c + |v| <= |s| && s[..|key|] == key && s[|key|] == ':'
      && (forall j :: 0 <= j < |sp| ==> s[|key| + 1 + j] == sp[j])
      && s[c..c + |v|] == v && (forall j :: 0 <= j < |v| ==> s[c + j] == v[j])
      && (c + |v| < |s| ==> !IsCaptureChar(s[c + |v|]))
    ensures LabelCapture(s, key) == Some(v)
  {
    var q := |key|;
    var c := q + 1 + |sp|;
    KeyAtStart(s, key);
    forall j | q + 1 <= j < c ensures IsSpace(s[j]) {
      assert s[j] == sp[j - q - 1];
    }
    assert s[c] == v[0];
    ColonThenSpaces(s, q, c);
    CaptureLengthIs(s, c, |v|);
    CaptureIs(s, key, c, v);
  }

  /** The capture of a key found at the start of s. */
  lemma CaptureIs(s: string, key: string, c: nat, v: string)
    requires FindFrom(s, key, 0) == Some(0) && |key| <= |s|
    requires CaptureStart(s, |key|) == c && c + |v| <= |s| && CaptureLength(s, c) == |v|
    requires s[c..c + |v|] == v
    ensures LabelCapture(s, key) == Some(v)
  {
    var r := CaptureAfter(s, |key|);
    assert r == v;
    assert LabelCapture(s, key) == CaptureFor(s, Some(0), |key|);
  }

  /** A key at the start of s is found there. */
  lemma KeyAtStart(s: string, key: string)
    requires |key| <= |s| && s[..|key|] == key
    ensures FindFrom(s, key, 0) == Some(0)
  {
    assert s[0..|key|] == key;
    assert LabelAt(s, key, 0);
  }

  /** After a ':' at q and whitespace up to c, the capture starts at c. */
  lemma ColonThenSpaces(s: string, q: nat, c: nat)
    requires q < c <= |s| && s[q] == ':'
    requires forall j :: q + 1 <= j < c ==> IsSpace(s[j])
    requires c < |s| ==> !IsSpace(s[c])
    ensures CaptureStart(s, q) == c
  {
    assert NoaaWeather.SpaceRunLength(s, q) == 0;
  }

  /** The capture at c runs for n characters when they are capture characters and the one
      after them is not. */
  lemma CaptureLengthIs(s: string, c: nat, n: nat)
    requires c + n <= |s| && forall j :: c <= j < c + n ==> IsCaptureChar(s[j])
    requires c + n < |s| ==> !IsCaptureChar(s[c + n])
    ensures CaptureLength(s, c) == n
  {
  }

  /** A label matches wherever a label equal to it ignoring case does. */
  lemma LabelAtIgnoresCase(s: string, key: string, other: string, p: nat)
    requires NoaaWeather.EqualsIgnoringCase(other, key)
    ensures LabelAt(s, other, p) == LabelAt(s, key, p)
  {
  }

  lemma {:induction false} FindFromIgnoresCase(s: string, key: string, other: string, p: nat)
    requires p <= |s| && NoaaWeather.EqualsIgnoringCase(other, key)
    ensures FindFrom(s, other, p) == FindFrom(s, key, p)
    decreases |s| - p
  {
    LabelAtIgnoresCase(s, key, other, p);
    if !LabelAt(s, key, p) && p < |s| {
      FindFromIgnoresCase(s, key, other, p + 1);
    }
  }

  /** Two labels of one length that match at the same places capture the same text. */
  lemma SameMatchSameCapture(s: string, key: string, other: string)
    requires |other| == |key| && FindFrom(s, other, 0) == FindFrom(s, key, 0)
    ensures LabelCapture(s, other) == LabelCapture(s, key)
  {
    assert LabelCapture(s, other) == CaptureFor(s, FindFrom(s, key, 0), |key|);
  }

  /** The case in which a label is written does not matter: labels that differ only in
      case yield the same text. */
  lemma LabelCaseIsIgnored(s: string, key: string, other: string)
    requires NoaaWeather.EqualsIgnoringCase(other, key)
    ensures Yield(s, other) == Yield(s, key)
  {
    FindFromIgnoresCase(s, key, other, 0);
    SameMatchSameCapture(s, key, other);
  }

  /** The Kelvin sign is not the letter k to the `i` flag, although toLowerCase maps it to
      'k': a label "k" does not match it. */
  lemma KelvinSignIsNotK(s: string, p: nat)
    requires p < |s| && s[p] == '\U{212A}'
    ensures !LabelAt(s, "k", p) && !LabelAt(s, "K", p)
    ensures Text.LowerChar(s[p]) == 'k'
  {
    assert s[p..p + 1][0] == s[p];
  }

  // ------------------------------------------------------------------ numbers

  /** `-?\d+(?:\.\d+)?` can match at p. */
  predicate NumberAt(t: string, p: nat) {
    p < |t| && (IsDigit(t[p]) || (t[p] == '-' && p + 1 < |t| && IsDigit(t[p + 1])))
  }

  /** The leftmost p where a number matches. */
  function NumberStart(t: string, p: nat): (r: Option<nat>)
    requires p <= |t|
    ensures r.Some? ==> p <= r.value && NumberAt(t, r.value)
    ensures r.Some? ==> forall j :: p <= j < r.value ==> !NumberAt(t, j)
    ensures r.None? ==> forall j :: p <= j < |t| ==> !NumberAt(t, j)
    decreases |t| - p
  {
    if p == |t| then None
    else if NumberAt(t, p) then Some(p)
    else NumberStart(t, p + 1)
  }

  /** `Number` of the first `-?\d+(?:\.\d+)?` in t, or None when there is none. */
  function FirstNumber(t: string): (r: Option<real>)
    ensures r.None? <==> forall j :: 0 <= j < |t| ==> !IsDigit(t[j])
  {
    match NumberStart(t, 0)
    case None =>
      assert forall j :: 0 <= j < |t| ==> !IsDigit(t[j]) by {
        forall j | 0 <= j < |t| ensures !IsDigit(t[j]) {
          assert !NumberAt(t, j);
        }
      }
      None
    case Some(p) =>
      assert IsDigit(t[p]) || IsDigit(t[p + 1]);
      if t[p] == '-' then Some(-Conditions.DecimalRun(t[p + 1..]).0)
      else Some(Conditions.DecimalRun(t[p..]).0)
  }

  /** `extractNumberAfterLabel(pageText, labels)`: null when no label yields text or the
      text holds no digit; otherwise the first number in the text, with its sign. */
  function ExtractNumberAfterLabel(s: string, labels: seq<string>): (r: Option<real>)
    ensures r.Some? <==> (ExtractTextAfterLabel(s, labels).Some?
      && (exists j :: 0 <= j < |ExtractTextAfterLabel(s, labels).value|
            && IsDigit(ExtractTextAfterLabel(s, labels).value[j])))
  {
    match ExtractTextAfterLabel(s, labels)
    case None => None
    case Some(text) => FirstNumber(text)
  }

  /** A number preceded by a minus sign is read negative, and one preceded by anything else
      is read as it is. */
  lemma {:induction false} SignIsKept(prefix: string, ds: string)
    requires forall j :: 0 <= j < |prefix| ==> !IsDigit(prefix[j]) && prefix[j] != '-'
    requires |ds| > 0 && AllDigits(ds)
    ensures FirstNumber(prefix + "-" + ds) == Some(-(DigitsValue(ds) as real))
    ensures FirstNumber(prefix + ds) == Some(DigitsValue(ds) as real)
  {
    var t := prefix + "-" + ds;
    assert forall j :: 0 <= j < |prefix| ==> t[j] == prefix[j] && !NumberAt(t, j);
    assert NumberAt(t, |prefix|);
    assert t[|prefix| + 1..] == ds;
    DecimalRunOfDigits(ds);
    var u := prefix + ds;
    assert forall j :: 0 <= j < |prefix| ==> u[j] == prefix[j] && !NumberAt(u, j);
    assert NumberAt(u, |prefix|);
    assert u[|prefix|..] == ds;
  }

  /** Text without digits or minus signs in front of a number does not change which number
      is read. */
  lemma SkipToNumber(prefix: string, t: string)
    requires forall j :: 0 <= j < |prefix| ==> !IsDigit(prefix[j]) && prefix[j] != '-'
    requires NumberAt(t, 0)
    ensures FirstNumber(prefix + t) == FirstNumber(t)
  {
    var u := prefix + t;
    PrefixText(prefix, t);
    forall j | 0 <= j < |prefix| ensures !NumberAt(u, j) {
      assert u[j] == prefix[j];
    }
    NumberStartAt(u, |prefix|);
    NumberStartAt(t, 0);
    SameNumber(u, |prefix|, t);
  }

  /** The first number starts at k when one can start there and none can before. */
  lemma NumberStartAt(u: string, k: nat)
    requires NumberAt(u, k) && forall j :: 0 <= j < k ==> !NumberAt(u, j)
    ensures NumberStart(u, 0) == Some(k)
  {
  }

  /** A number read at p in u is the number read at the start of t when t is what follows p. */
  lemma SameNumber(u: string, p: nat, t: string)
    requires p < |u| && t != [] && NumberStart(u, 0) == Some(p) && NumberStart(t, 0) == Some(0)
    requires u[p..] == t && u[p] == t[0] && u[p + 1..] == t[1..]
    ensures FirstNumber(u) == FirstNumber(t)
  {
    assert t[0..] == t;
    if t[0] == '-' {
      assert FirstNumber(u) == Some(-Conditions.DecimalRun(t[1..]).0);
    } else {
      assert FirstNumber(u) == Some(Conditions.DecimalRun(t).0);
    }
  }

  /** Where t lies after prefix. */
  lemma PrefixText(prefix: string, t: string)
    requires t != []
    ensures var u := prefix + t;
      && u[|prefix|..] == t && u[|prefix|] == t[0] && u[|prefix| + 1..] == t[1..]
      && (|t| > 1 ==> u[|prefix| + 1] == t[1])
      && forall j :: 0 <= j < |prefix| ==> u[j] == prefix[j]
  {
  }

  /** A number with a fraction is read whole: after text without digits or minus signs,
      "12.5" reads as 12.5. */
  lemma FractionIsRead(prefix: string, ds: string, fs: string, rest: string)
    requires forall j :: 0 <= j < |prefix| ==> !IsDigit(prefix[j]) && prefix[j] != '-'
    requires |ds| > 0 && |fs| > 0 && AllDigits(ds) && AllDigits(fs)
    requires rest == [] || !IsDigit(rest[0])
    ensures FirstNumber(prefix + (ds + "." + fs + rest)) == Some(DecimalValue(ds, fs))
  {
    var t := ds + "." + fs + rest;
    Conditions.DecimalRunOfFraction(ds, fs, rest);
    FractionStartsWithDigit(ds, fs, rest);
    FirstNumberOfRun(t, DecimalValue(ds, fs));
    SkipToNumber(prefix, t);
  }

  lemma FractionStartsWithDigit(ds: string, fs: string, rest: string)
    requires |ds| > 0 && AllDigits(ds)
    ensures var t := ds + "." + fs + rest; t != [] && IsDigit(t[0])
  {
    assert (ds + "." + fs + rest)[0] == ds[0];
  }

  /** A fraction keeps its sign: after text without digits or minus signs, "-3.5" reads
      as -3.5. */
  lemma NegativeFractionIsRead(prefix: string, ds: string, fs: string, rest: string)
    requires forall j :: 0 <= j < |prefix| ==> !IsDigit(prefix[j]) && prefix[j] != '-'
    requires |ds| > 0 && |fs| > 0 && AllDigits(ds) && AllDigits(fs)
    requires rest == [] || !IsDigit(rest[0])
    ensures FirstNumber(prefix + ("-" + (ds + "." + fs + rest))) == Some(-DecimalValue(ds, fs))
  {
    var v := DecimalValue(ds, fs);
    var t := ds + "." + fs + rest;
    Conditions.DecimalRunOfFraction(ds, fs, rest);
    FractionStartsWithDigit(ds, fs, rest);
    NegativeNumberIsRead(prefix, t, v);
  }

  /** After text without digits or minus signs, '-' and a number of value v read as -v. */
  lemma NegativeNumberIsRead(prefix: string, t: string, v: real)
    requires forall j :: 0 <= j < |prefix| ==> !IsDigit(prefix[j]) && prefix[j] != '-'
    requires t != [] && IsDigit(t[0]) && Conditions.DecimalRun(t).0 == v
    ensures FirstNumber(prefix + ("-" + t)) == Some(-v)
  {
    FirstNumberOfMinus(t, v);
    SkipToNumber(prefix, "-" + t);
  }

  /** Text starting with a digit reads as the number that starts there. */
  lemma FirstNumberOfRun(t: string, v: real)
    requires t != [] && IsDigit(t[0]) && Conditions.DecimalRun(t).0 == v
    ensures NumberAt(t, 0) && FirstNumber(t) == Some(v)
  {
    NumberStartAt(t, 0);
    assert t[0..] == t;
  }

  /** A '-' directly before a digit makes the number negative. */
  lemma FirstNumberOfMinus(t: string, v: real)
    requires t != [] && IsDigit(t[0]) && Conditions.DecimalRun(t).0 == v
    ensures NumberAt("-" + t, 0) && FirstNumber("-" + t) == Some(-v)
  {
    var u := "-" + t;
    assert u[0] == '-' && u[1] == t[0] && u[1..] == t;
    NumberStartAt(u, 0);
  }

  /** A labelled reading such as "Water Temp: 72.5 F" reads as the number after the label,
      fraction included. */
  lemma LabelledReading(key: string, sp: string, ds: string, fs: string, unit: string, rest: string)
    requires forall i :: 0 <= i < |sp| ==> IsSpace(sp[i])
    requires |ds| > 0 && |fs| > 0 && AllDigits(ds) && AllDigits(fs)
    requires forall i :: 0 <= i < |unit| ==> IsCaptureChar(unit[i])
    requires unit == [] || !IsDigit(unit[0])
    requires rest == [] || !IsCaptureChar(rest[0])
    ensures ExtractNumberAfterLabel(key + ":" + sp + (ds + "." + fs + unit) + rest, [key])
      == Some(DecimalValue(ds, fs))
  {
    var v := ds + "." + fs + unit;
    ReadingText(ds, fs, unit);
    LabelledLineYields(key, sp, v, rest);
    var u := TrimmedReading(ds, fs, unit);
    FractionIsRead([], ds, fs, u);
    assert [] + (ds + "." + fs + u) == ds + "." + fs + u;
  }

  /** A reading `ds.fs` and its unit form one line that starts with a digit. */
  lemma ReadingText(ds: string, fs: string, unit: string)
    requires |ds| > 0 && AllDigits(ds) && AllDigits(fs)
    requires forall i :: 0 <= i < |unit| ==> IsCaptureChar(unit[i])
    ensures var v := ds + "." + fs + unit;
      && v != [] && !IsSpace(v[0]) && forall i :: 0 <= i < |v| ==> IsCaptureChar(v[i])
  {
    var v := ds + "." + fs + unit;
    assert v[0] == ds[0];
    forall i | 0 <= i < |v| ensures IsCaptureChar(v[i]) {
      if i < |ds| {
        assert v[i] == ds[i];
      } else if |ds| < i < |ds| + 1 + |fs| {
        assert v[i] == fs[i - |ds| - 1];
      } else if i >= |ds| + 1 + |fs| {
        assert v[i] == unit[i - |ds| - 1 - |fs|];
      }
    }
  }

  /** Trimming a reading keeps the number and the start of its unit. */
  lemma TrimmedReading(ds: string, fs: string, unit: string) returns (u: string)
    requires |ds| > 0 && |fs| > 0 && AllDigits(ds) && AllDigits(fs)
    ensures Trim(ds + "." + fs + unit) == ds + "." + fs + u
    ensures u == [] || (unit != [] && u[0] == unit[0])
  {
    var number := ds + "." + fs;
    var v := number + unit;
    ReadingEdges(ds, fs, unit);
    TrimShape(v);
    u := NumberSurvivesTrim(v, Trim(v), |v| - |TrimStart(v)|, number, unit);
  }

  /** A reading starts with a digit and its number ends with one. */
  lemma ReadingEdges(ds: string, fs: string, unit: string)
    requires |ds| > 0 && |fs| > 0 && AllDigits(ds) && AllDigits(fs)
    ensures var number := ds + "." + fs; var v := number + unit;
      && v == ds + "." + fs + unit && IsDigit(v[0]) && IsDigit(v[|number| - 1])
  {
    var number := ds + "." + fs;
    assert number[0] == ds[0] && number[|number| - 1] == fs[|fs| - 1];
  }

  /** Trimming text that starts with a number and has a non-space at the number's end keeps
      the number whole. */
  lemma NumberSurvivesTrim(v: string, r: string, k: nat, number: string, unit: string) returns (u: string)
    requires v == number + unit && number != []
    requires !IsSpace(v[0]) && !IsSpace(v[|number| - 1])
    requires k + |r| <= |v| && r == v[k..k + |r|]
    requires forall i :: 0 <= i < k ==> IsSpace(v[i])
    requires forall i :: k + |r| <= i < |v| ==> IsSpace(v[i])
    ensures r == number + u && (u == [] || (unit != [] && u[0] == unit[0]))
  {
    assert k == 0;
    KeptBeforeTrailingSpace(v, |r|, |number| - 1);
    u := unit[..|r| - |number|];
    assert r == number + u;
  }

  /** A character that is not whitespace lies before the trailing whitespace. */
  lemma KeptBeforeTrailingSpace(v: string, n: nat, p: nat)
    requires n <= |v| && forall i :: n <= i < |v| ==> IsSpace(v[i])
    requires p < |v| && !IsSpace(v[p])
    ensures p < n
  {
  }

  /** A run of digits reads as its decimal value. */
  lemma DecimalRunOfDigits(ds: string)
    requires |ds| > 0 && AllDigits(ds)
    ensures Conditions.DecimalRun(ds).0 == DigitsValue(ds) as real
  {
    var a := LeadingDigits(ds);
    assert a == |ds|;
    assert ds[..a] == ds;
  }
}
