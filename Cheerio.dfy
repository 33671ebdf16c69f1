/** The vendored selector engine of vendor/cheerio/index.js, which knows only `<img>` tags:
    `load` scans a document for its image tags and their quoted attributes, and the
    selector it returns understands `img` and `img[src*="…"]`, comma-separated. Each
    `exec` of a global regular expression is modelled by a function that finds the leftmost
    match at or after the expression's `lastIndex`. */
module Cheerio {
  import opened Wrappers
  import opened Text
  import NoaaWeather
  import GcoosField

  /** One `{ tag, attrs }` entry: the tag's text and its attributes by lower-case name. */
  datatype Image = Image(tag: string, attrs: map<string, string>)

  // ------------------------------------------------------------------ `/<img[^>]*>/gi`

  /** "<img" at p, ignoring case. */
  predicate ImgOpenAt(s: string, p: nat) {
    p + 4 <= |s| && NoaaWeather.EqualsIgnoringCase(s[p..p + 4], "<img")
  }

  /** The first '>' at or after q. */
  function CloseFrom(s: string, q: nat): (r: Option<nat>)
    requires q <= |s|
    ensures r.Some? ==> q <= r.value < |s| && s[r.value] == '>'
    ensures r.Some? ==> forall j :: q <= j < r.value ==> s[j] != '>'
    ensures r.None? ==> forall j :: q <= j < |s| ==> s[j] != '>'
    decreases |s| - q
  {
    if q == |s| then None
    else if s[q] == '>' then Some(q)
    else CloseFrom(s, q + 1)
  }

  /** Where a tag match starting at p ends (exclusive): `[^>]*` runs to the first '>',
      which must exist. */
  function TagEnd(s: string, p: nat): (r: Option<nat>)
    requires p <= |s|
    ensures r.Some? ==> p + 5 <= r.value <= |s|
  {
    if ImgOpenAt(s, p) then
      match CloseFrom(s, p + 4)
      case None => None
      case Some(k) => Some(k + 1)
    else None
  }

  /** One `imgRegex.exec(html)` with `lastIndex` at `from`: the leftmost tag, as (start, end). */
  function NextTag(s: string, from: nat): (r: Option<(nat, nat)>)
    requires from <= |s|
    ensures r.Some? ==> from <= r.value.0 <= |s| && TagEnd(s, r.value.0) == Some(r.value.1)
    ensures r.Some? ==> forall j :: from <= j < r.value.0 ==> TagEnd(s, j).None?
    ensures r.None? ==> forall j :: from <= j <= |s| ==> TagEnd(s, j).None?
    decreases |s| - from
  {
    if TagEnd(s, from).Some? then Some((from, TagEnd(s, from).value))
    else if from == |s| then None
    else NextTag(s, from + 1)
  }

  // ------------------------------------------------------------------ `/(\w+)=(["'])(.*?)\2/g`

  /** One attribute match: its name, its value, and where the match starts and ends. */
  datatype AttrMatch = AttrMatch(name: string, value: string, start: nat, end: nat)

  /** The length of the `\w` run at p. */
  function WordRunLength(t: string, p: nat): (n: nat)
    requires p <= |t|
    ensures p + n <= |t|
    ensures forall j :: p <= j < p + n ==> IsWordChar(t[j])
    ensures p + n < |t| ==> !IsWordChar(t[p + n])
    decreases |t| - p
  {
    if p < |t| && IsWordChar(t[p]) then 1 + WordRunLength(t, p + 1) else 0
  }

  /** The closing quote of a value that starts at q: the first `quote`, provided no line
      terminator (which `.` does not match) comes before it. */
  function CloseQuote(t: string, q: nat, quote: char): (r: Option<nat>)
    requires q <= |t|
    ensures r.Some? ==> q <= r.value < |t| && t[r.value] == quote
    ensures r.Some? ==> forall j :: q <= j < r.value ==> t[j] != quote && !IsLineTerminator(t[j])
    decreases |t| - q
  {
    if q == |t| then None
    else if t[q] == quote then Some(q)
    else if IsLineTerminator(t[q]) then None
    else CloseQuote(t, q + 1, quote)
  }

  /** The attribute match starting at p, if any. A shorter `\w+` never helps, since the
      character after it would be a word character rather than '='. A match is the name,
      '=', a quote, the value, and the same quote again. */
  function AttrAt(t: string, p: nat): (r: Option<AttrMatch>)
    requires p <= |t|
    ensures r.Some? ==> r.value.start == p && p < r.value.end <= |t|
    ensures r.Some? ==> r.value.name != [] && forall j :: 0 <= j < |r.value.name| ==> IsWordChar(r.value.name[j])
  {
    var w := WordRunLength(t, p);
    if w > 0 && p + w + 1 < |t| && t[p + w] == '=' && (t[p + w + 1] == '"' || t[p + w + 1] == '\'') then
      match CloseQuote(t, p + w + 2, t[p + w + 1])
      case None => None
      case Some(k) =>
        var name := t[p..p + w];
        assert forall j :: 0 <= j < |name| ==> name[j] == t[p + j];
        Some(AttrMatch(name, t[p + w + 2..k], p, k + 1))
    else None
  }

  /** What a match is made of: the name, '=', a quote, the value, and the same quote
      again, the value holding neither that quote nor a line terminator. */
  lemma AttrAtText(t: string, p: nat)
    requires p <= |t| && AttrAt(t, p).Some?
    ensures var m, w := AttrAt(t, p).value, |AttrAt(t, p).value.name|;
      && p + w + 2 < m.end
      && m.name == t[p..p + w] && t[p + w] == '='
      && (t[p + w + 1] == '"' || t[p + w + 1] == '\'')
      && m.value == t[p + w + 2..m.end - 1] && t[m.end - 1] == t[p + w + 1]
      && forall j :: 0 <= j < |m.value| ==> m.value[j] != t[p + w + 1] && !IsLineTerminator(m.value[j])
  {
    var m := AttrAt(t, p).value;
    var w := |m.name|;
    assert WordRunLength(t, p) == w;
    var k := m.end - 1;
    assert CloseQuote(t, p + w + 2, t[p + w + 1]) == Some(k);
    forall j | 0 <= j < |m.value|
      ensures m.value[j] != t[p + w + 1] && !IsLineTerminator(m.value[j])
    {
      assert m.value[j] == t[p + w + 2 + j];
    }
  }

  /** One `attrRegex.exec(tag)` with `lastIndex` at `from`: the leftmost attribute match. */
  function NextAttr(t: string, from: nat): (r: Option<AttrMatch>)
    requires from <= |t|
    ensures r.Some? ==> from < r.value.end <= |t|
    ensures r.Some? ==> r.value.name != [] && forall j :: 0 <= j < |r.value.name| ==> IsWordChar(r.value.name[j])
    decreases |t| - from
  {
    if AttrAt(t, from).Some? then AttrAt(t, from)
    else if from == |t| then None
    else NextAttr(t, from + 1)
  }

  /** The attributes of a tag from `from` on, added to `acc`, each under its lower-case name,
      a later match overwriting an earlier one. */
  function AttrsFrom(t: string, from: nat, acc: map<string, string>): map<string, string>
    requires from <= |t|
    decreases |t| - from
  {
    match NextAttr(t, from)
    case None => acc
    case Some(m) => AttrsFrom(t, m.end, acc[ToLower(m.name) := m.value])
  }

  /** The entries of `parseImages` from `from` on, in document order. */
  function Images(s: string, from: nat): seq<Image>
    requires from <= |s|
    decreases |s| - from
  {
    match NextTag(s, from)
    case None => []
    case Some((p, e)) =>
      var tag := s[p..e];
      [Image(tag, AttrsFrom(tag, 0, map[]))] + Images(s, e)
  }

  /** `parseImages(html)`: the outer loop runs the tag expression, the inner one the
      attribute expression over each tag. */
  method ParseImages(html: string) returns (matches: seq<Image>)
    ensures matches == Images(html, 0)
  {
    matches := [];
    var lastIndex: nat := 0;
    var next := NextTag(html, 0);
    while next.Some?
      invariant lastIndex <= |html|
      invariant next == NextTag(html, lastIndex)
      invariant matches + Images(html, lastIndex) == Images(html, 0)
      decreases |html| - lastIndex
    {
      var (start, end) := next.value;
      var tag := html[start..end];
      var attrs := ParseAttributes(tag);
      assert Images(html, lastIndex) == [Image(tag, attrs)] + Images(html, end);
      assert matches + Images(html, lastIndex) == (matches + [Image(tag, attrs)]) + Images(html, end);
      matches := matches + [Image(tag, attrs)];
      lastIndex := end;
      next := NextTag(html, lastIndex);
    }
  }

  /** The inner loop of `parseImages`: the attribute expression run over one tag. */
  method ParseAttributes(tag: string) returns (attrs: map<string, string>)
    ensures attrs == AttrsFrom(tag, 0, map[])
  {
    attrs := map[];
    var attrIndex: nat := 0;
    var attrMatch := NextAttr(tag, 0);
    while attrMatch.Some?
      invariant attrIndex <= |tag|
      invariant attrMatch == NextAttr(tag, attrIndex)
      invariant AttrsFrom(tag, attrIndex, attrs) == AttrsFrom(tag, 0, map[])
      decreases |tag| - attrIndex
    {
      var m := attrMatch.value;
      attrs := attrs[ToLower(m.name) := m.value];
      attrIndex := m.end;
      attrMatch := NextAttr(tag, attrIndex);
    }
  }

  // ------------------------------------------------------------------ properties of the scan

  /** The text of one `<img …>` tag: "<img" in any case, then anything but '>', then '>'. */
  predicate IsImgTag(t: string) {
    |t| >= 5 && NoaaWeather.EqualsIgnoringCase(t[..4], "<img") && t[|t| - 1] == '>'
    && forall j :: 4 <= j < |t| - 1 ==> t[j] != '>'
  }

  /** Every entry is one image tag of the document. */
  lemma {:induction false} EntriesAreImgTags(s: string, from: nat)
    requires from <= |s|
    ensures forall i :: 0 <= i < |Images(s, from)| ==> IsImgTag(Images(s, from)[i].tag)
    decreases |s| - from
  {
    match NextTag(s, from)
    case None =>
    case Some((p, e)) =>
      var tag := s[p..e];
      var rest := Images(s, e);
      assert Images(s, from) == [Image(tag, AttrsFrom(tag, 0, map[]))] + rest;
      TagIsImgTag(s, p, e);
      EntriesAreImgTags(s, e);
      forall i | 0 <= i < |Images(s, from)| ensures IsImgTag(Images(s, from)[i].tag) {
        if i > 0 {
          assert Images(s, from)[i] == rest[i - 1];
        }
      }
  }

  /** What the tag expression matches is an image tag. */
  lemma TagIsImgTag(s: string, p: nat, e: nat)
    requires p <= |s| && TagEnd(s, p) == Some(e)
    ensures IsImgTag(s[p..e])
  {
    var tag := s[p..e];
    var k := CloseFrom(s, p + 4).value;
    assert e == k + 1;
    assert tag[..4] == s[p..p + 4];
    forall j | 4 <= j < |tag| - 1 ensures tag[j] != '>' {
      assert tag[j] == s[p + j];
    }
    assert tag[|tag| - 1] == s[k];
  }

  /** A document without a '>' after any "<img" has no images. */
  lemma {:induction false} NoTagNoImages(s: string, from: nat)
    requires from <= |s|
    requires forall p :: from <= p <= |s| ==> TagEnd(s, p).None?
    ensures Images(s, from) == []
  {
  }

  /** The first '>' is found wherever it is. */
  lemma {:induction false} CloseFromFinds(s: string, q: nat, k: nat)
    requires q <= k < |s| && s[k] == '>'
    requires forall j :: q <= j < k ==> s[j] != '>'
    ensures CloseFrom(s, q) == Some(k)
    decreases k - q
  {
    if q < k {
      CloseFromFinds(s, q + 1, k);
    }
  }

  /** A document that is one image tag has exactly that entry. */
  lemma SingleTagDocument(body: string)
    requires forall j :: 0 <= j < |body| ==> body[j] != '>'
    ensures var s := "<img" + body + ">";
      Images(s, 0) == [Image(s, AttrsFrom(s, 0, map[]))]
  {
    var s := "<img" + body + ">";
    assert s[..4] == "<img";
    assert ImgOpenAt(s, 0);
    assert forall j :: 4 <= j < |s| - 1 ==> s[j] == body[j - 4];
    CloseFromFinds(s, 4, |s| - 1);
    assert s[0..|s|] == s;
    assert NextTag(s, 0) == Some((0, |s|));
    assert NextTag(s, |s|).None?;
  }

  /** The scan finds the leftmost attribute match at or after `from`, and none when no
      position has one. */
  lemma {:induction false} NextAttrIsLeftmost(t: string, from: nat)
    requires from <= |t|
    ensures var r := NextAttr(t, from);
      && (r.Some? ==> from <= r.value.start <= |t| && AttrAt(t, r.value.start) == r)
      && (r.Some? ==> forall j :: from <= j < r.value.start ==> AttrAt(t, j).None?)
      && (r.None? ==> forall j :: from <= j <= |t| ==> AttrAt(t, j).None?)
    decreases |t| - from
  {
    if AttrAt(t, from).None? && from < |t| {
      NextAttrIsLeftmost(t, from + 1);
    }
  }

  /** The run of word characters at p stops at the first other character. */
  lemma {:induction false} WordRunTo(t: string, p: nat, k: nat)
    requires p <= k < |t| && !IsWordChar(t[k])
    requires forall j :: p <= j < k ==> IsWordChar(t[j])
    ensures WordRunLength(t, p) == k - p
    decreases k - p
  {
    if p < k {
      WordRunTo(t, p + 1, k);
    }
  }

  /** The value ends at the first matching quote when no line terminator comes before it. */
  lemma {:induction false} CloseQuoteAt(t: string, q: nat, quote: char, k: nat)
    requires q <= k < |t| && t[k] == quote
    requires forall j :: q <= j < k ==> t[j] != quote && !IsLineTerminator(t[j])
    ensures CloseQuote(t, q, quote) == Some(k)
    decreases k - q
  {
    if q < k {
      CloseQuoteAt(t, q + 1, quote, k);
    }
  }

  /** A word run followed by '=', a quote and a closing quote is a match. */
  lemma AttrAtFound(t: string, p: nat, w: nat, k: nat)
    requires 0 < w && p + w + 2 <= k < |t|
    requires WordRunLength(t, p) == w && t[p + w] == '=' && (t[p + w + 1] == '"' || t[p + w + 1] == '\'')
    requires CloseQuote(t, p + w + 2, t[p + w + 1]) == Some(k)
    ensures AttrAt(t, p) == Some(AttrMatch(t[p..p + w], t[p + w + 2..k], p, k + 1))
  {
  }

  /** A tag that is one attribute: a word run, '=', '"', a value holding neither '"' nor
      a line terminator, and '"'. */
  lemma SingleAttr(t: string, w: nat)
    requires 0 < w && w + 3 <= |t|
    requires forall j :: 0 <= j < w ==> IsWordChar(t[j])
    requires t[w] == '=' && t[w + 1] == '"' && t[|t| - 1] == '"'
    requires forall j :: w + 2 <= j < |t| - 1 ==> t[j] != '"' && !IsLineTerminator(t[j])
    ensures AttrsFrom(t, 0, map[]) == map[ToLower(t[..w]) := t[w + 2..|t| - 1]]
  {
    WordRunTo(t, 0, w);
    CloseQuoteAt(t, w + 2, '"', |t| - 1);
    AttrAtFound(t, 0, w, |t| - 1);
    var m := AttrMatch(t[0..w], t[w + 2..|t| - 1], 0, |t|);
    assert NextAttr(t, 0) == Some(m);
    OnlyMatch(t, m);
    assert t[..w] == t[0..w];
  }

  /** A first match that runs to the end of the tag is its only attribute. */
  lemma OnlyMatch(t: string, m: AttrMatch)
    requires NextAttr(t, 0) == Some(m) && m.end == |t|
    ensures AttrsFrom(t, 0, map[]) == map[ToLower(m.name) := m.value]
  {
    assert WordRunLength(t, |t|) == 0;
    assert NextAttr(t, |t|).None?;
  }

  /** A single attribute `name="value"`, with a value that holds neither '"' nor a line
      terminator, is read as that value under the lower-case name. */
  lemma AttributeValue(n: string, v: string)
    requires n != [] && forall j :: 0 <= j < |n| ==> IsWordChar(n[j])
    requires forall j :: 0 <= j < |v| ==> v[j] != '"' && !IsLineTerminator(v[j])
    ensures AttrsFrom(n + ("=\"" + (v + "\"")), 0, map[]) == map[ToLower(n) := v]
  {
    var t := n + ("=\"" + (v + "\""));
    var w := |n|;
    assert t[..w] == n;
    assert t[w..] == "=\"" + (v + "\"");
    assert t[w + 2..] == v + "\"";
    assert t[w + 2..|t| - 1] == v;
    SingleAttr(t, w);
  }

  /** Attributes added on top of `acc` override it: the scan is `acc` merged with the
      attributes found, the later winning. */
  lemma {:induction false} AttrsOverride(t: string, from: nat, acc: map<string, string>)
    requires from <= |t|
    ensures AttrsFrom(t, from, acc) == acc + AttrsFrom(t, from, map[])
    decreases |t| - from
  {
    match NextAttr(t, from)
    case None =>
    case Some(m) =>
      var k, v := ToLower(m.name), m.value;
      AttrsOverride(t, m.end, acc[k := v]);
      AttrsOverride(t, m.end, map[k := v]);
      var rest := AttrsFrom(t, m.end, map[]);
      assert acc[k := v] + rest == acc + (map[k := v] + rest);
  }

  /** A later attribute of the same name wins; when none follows, the first match's value
      is kept. */
  lemma LaterAttributeWins(t: string, from: nat, key: string)
    requires from <= |t| && NextAttr(t, from).Some?
    requires ToLower(NextAttr(t, from).value.name) == key
    ensures var m := NextAttr(t, from).value;
      var later := AttrsFrom(t, m.end, map[]);
      key in AttrsFrom(t, from, map[]) &&
      AttrsFrom(t, from, map[])[key] == if key in later then later[key] else m.value
  {
    var m := NextAttr(t, from).value;
    AttrsOverride(t, m.end, map[key := m.value]);
  }

  /** Every attribute name is stored in lower case. */
  lemma {:induction false} AttrNamesAreLowerCase(t: string, from: nat, acc: map<string, string>)
    requires from <= |t|
    requires forall k :: k in acc ==> ToLower(k) == k
    ensures forall k :: k in AttrsFrom(t, from, acc) ==> ToLower(k) == k
    decreases |t| - from
  {
    match NextAttr(t, from)
    case None =>
    case Some(m) =>
      ToLowerIdempotent(m.name);
      AttrNamesAreLowerCase(t, m.end, acc[ToLower(m.name) := m.value]);
  }

  // ------------------------------------------------------------------ the wrapper

  /** `createWrapper(elements)`. */
  datatype Wrapper = Wrapper(elements: seq<Image>)

  /** `first()`: the first element alone, or nothing. */
  function First(w: Wrapper): (r: Wrapper)
    ensures |r.elements| <= 1
    ensures |r.elements| == 1 <==> |w.elements| >= 1
    ensures r.elements != [] ==> r.elements[0] == w.elements[0]
  {
    Wrapper(if |w.elements| > 0 then [w.elements[0]] else [])
  }

  /** `attr(name)`: undefined (None) on an empty wrapper; otherwise the first element's
      attribute of the lower-case name, undefined when it has none. */
  function Attr(w: Wrapper, name: string): (r: Option<string>)
    ensures w.elements == [] ==> r.None?
    ensures r.Some? ==> ToLower(name) in w.elements[0].attrs && r.value == w.elements[0].attrs[ToLower(name)]
  {
    if |w.elements| == 0 then None
    else if ToLower(name) in w.elements[0].attrs then Some(w.elements[0].attrs[ToLower(name)])
    else None
  }

  /** The `length` getter. */
  function Length(w: Wrapper): nat {
    |w.elements|
  }

  /** `first()` keeps what `attr` reads, and a name is looked up in any case. */
  lemma FirstKeepsAttr(w: Wrapper, name: string)
    ensures Attr(First(w), name) == Attr(w, name)
    ensures Attr(w, ToLower(name)) == Attr(w, name)
    ensures Length(First(w)) == if Length(w) == 0 then 0 else 1
  {
    ToLowerIdempotent(name);
  }

  // ------------------------------------------------------------------ selectors

  const ImgAttrPrefix: string := "img[src*=\""
  const ImgAttrSuffix: string := "\"]"

  /** The needle of `/^img\[src\*="(.+?)"\]$/i` on a lower-cased selector: everything
      between the fixed prefix and suffix, at least one character and no line terminator. */
  function SrcNeedle(n: string): (r: Option<string>)
    ensures r.Some? ==> n == ImgAttrPrefix + r.value + ImgAttrSuffix && r.value != []
  {
    if |n| >= |ImgAttrPrefix| + 1 + |ImgAttrSuffix| && n[..|ImgAttrPrefix|] == ImgAttrPrefix
       && n[|n| - |ImgAttrSuffix|..] == ImgAttrSuffix
       && forall j :: |ImgAttrPrefix| <= j < |n| - |ImgAttrSuffix| ==> !IsLineTerminator(n[j])
    then
      var needle := n[|ImgAttrPrefix|..|n| - |ImgAttrSuffix|];
      assert n == ImgAttrPrefix + needle + ImgAttrSuffix;
      Some(needle)
    else None
  }

  /** The images whose `src` (the empty string when missing) contains the needle,
      ignoring case. */
  function SrcContaining(images: seq<Image>, needle: string): (r: seq<Image>)
    ensures |r| <= |images|
    ensures forall i :: 0 <= i < |r| ==> r[i] in images
    ensures forall i :: 0 <= i < |r| ==> Contains(ToLower(SrcOf(r[i])), needle)
  {
    if images == [] then []
    else
      var rest := SrcContaining(images[1..], needle);
      if Contains(ToLower(SrcOf(images[0])), needle) then [images[0]] + rest else rest
  }

  /** `img.attrs.src || ''`. */
  function SrcOf(img: Image): string {
    if "src" in img.attrs then img.attrs["src"] else ""
  }

  /** `filterImages(images, selector)`. */
  function FilterImages(images: seq<Image>, selector: string): (r: seq<Image>)
    ensures ToLower(Trim(selector)) == "img" ==> r == images
  {
    var normalized := ToLower(Trim(selector));
    if normalized == "img" then images
    else
      match SrcNeedle(normalized)
      case Some(needle) => SrcContaining(images, ToLower(needle))
      case None => []
  }

  /** A selector that is neither `img` nor `img[src*="…"]` selects nothing. */
  lemma OtherSelectorsSelectNothing(images: seq<Image>, selector: string)
    requires ToLower(Trim(selector)) != "img" && SrcNeedle(ToLower(Trim(selector))).None?
    ensures FilterImages(images, selector) == []
  {
  }

  /** An image is kept by `img[src*="x"]` exactly when its source contains x, ignoring case. */
  lemma {:induction false} SrcFilterKeepsMatches(images: seq<Image>, needle: string, img: Image)
    requires img in images
    ensures img in SrcContaining(images, needle) <==> Contains(ToLower(SrcOf(img)), needle)
  {
    if images[0] != img {
      SrcFilterKeepsMatches(images[1..], needle, img);
    }
  }

  /** The selectors of a selector list: split at commas, trimmed, empty ones dropped. */
  function Selectors(pieces: seq<string>): (r: seq<string>)
    ensures forall i :: 0 <= i < |r| ==> r[i] != []
  {
    if pieces == [] then []
    else (if Trim(pieces[0]) != [] then [Trim(pieces[0])] else []) + Selectors(pieces[1..])
  }

  /** `selectors.flatMap((sel) => filterImages(images, sel))`. */
  function FilterAll(images: seq<Image>, selectors: seq<string>): seq<Image> {
    FlatMap(sel => FilterImages(images, sel), selectors)
  }

  /** `xs.flatMap(f)`. */
  function FlatMap<T>(f: string -> seq<T>, xs: seq<string>): seq<T> {
    if xs == [] then [] else f(xs[0]) + FlatMap(f, xs[1..])
  }

  /** `load(html)`: the images of the document; a missing document reads as empty. */
  function Load(html: Option<string>): seq<Image> {
    Images(if html.Some? then html.value else "", 0)
  }

  lemma AppendAssociates<T>(a: seq<T>, b: seq<T>, c: seq<T>)
    ensures a + (b + c) == (a + b) + c
  {
  }

  /** `load(html)(selector)`. */
  function Select(html: Option<string>, selector: string): Wrapper {
    Wrapper(FilterAll(Load(html), Selectors(GcoosField.Split(selector, ','))))
  }

  // ------------------------------------------------------------------ properties of select

  lemma {:induction false} SplitAtSeparator(a: string, b: string, c: char)
    requires c !in a
    ensures GcoosField.Split(a + [c] + b, c) == GcoosField.Split(a, c) + GcoosField.Split(b, c)
  {
    if a == [] {
      assert a + [c] + b == [c] + b;
      assert ([c] + b)[1..] == b;
    } else {
      assert (a + [c] + b)[1..] == a[1..] + [c] + b;
      SplitAtSeparator(a[1..], b, c);
    }
  }

  lemma {:induction false} SelectorsConcat(p: seq<string>, q: seq<string>)
    ensures Selectors(p + q) == Selectors(p) + Selectors(q)
  {
    if p == [] {
      assert p + q == q;
    } else {
      var head := if Trim(p[0]) != [] then [Trim(p[0])] else [];
      assert Selectors(p + q) == head + Selectors(p[1..] + q) by {
        assert (p + q)[0] == p[0] && (p + q)[1..] == p[1..] + q;
      }
      SelectorsConcat(p[1..], q);
      AppendAssociates(head, Selectors(p[1..]), Selectors(q));
    }
  }

  lemma FilterAllConcat(images: seq<Image>, p: seq<string>, q: seq<string>)
    ensures FilterAll(images, p + q) == FilterAll(images, p) + FilterAll(images, q)
  {
    FlatMapConcat(sel => FilterImages(images, sel), p, q);
  }

  lemma {:induction false} FlatMapConcat<T>(f: string -> seq<T>, p: seq<string>, q: seq<string>)
    ensures FlatMap(f, p + q) == FlatMap(f, p) + FlatMap(f, q)
  {
    if p == [] {
      assert p + q == q;
    } else {
      assert (p + q)[0] == p[0] && (p + q)[1..] == p[1..] + q;
      FlatMapConcat(f, p[1..], q);
      AppendAssociates(f(p[0]), FlatMap(f, p[1..]), FlatMap(f, q));
    }
  }

  /** A selector list selects what its first selector selects followed by what the rest
      selects, duplicates kept. */
  lemma SelectConcatenates(html: Option<string>, first: string, rest: string)
    requires ',' !in first
    ensures Select(html, first + "," + rest).elements
      == Select(html, first).elements + Select(html, rest).elements
  {
    SplitAtSeparator(first, rest, ',');
    assert first + "," + rest == first + [','] + rest;
    SelectorsConcat(GcoosField.Split(first, ','), GcoosField.Split(rest, ','));
    FilterAllConcat(Load(html), Selectors(GcoosField.Split(first, ',')), Selectors(GcoosField.Split(rest, ',')));
  }

  /** A missing document and an empty one select nothing. */
  lemma MissingDocumentSelectsNothing(selector: string)
    ensures Select(None, selector).elements == []
    ensures Select(Some(""), selector).elements == []
  {
    assert Images("", 0) == [];
    EmptyFilterAll(Selectors(GcoosField.Split(selector, ',')));
  }

  lemma EmptyFilterAll(selectors: seq<string>)
    ensures FilterAll([], selectors) == []
  {
    forall sel: string ensures FilterImages([], sel) == [] {
      assert SrcContaining([], ToLower(ToLower(Trim(sel)))) == [];
    }
    FlatMapOfEmpties(sel => FilterImages([], sel), selectors);
  }

  lemma {:induction false} FlatMapOfEmpties<T>(f: string -> seq<T>, xs: seq<string>)
    requires forall x :: f(x) == []
    ensures FlatMap(f, xs) == []
  {
    if xs != [] {
      FlatMapOfEmpties(f, xs[1..]);
    }
  }
}
