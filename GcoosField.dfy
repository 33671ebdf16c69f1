/** The GCOOS wind field of src/lib/gcoosField.js: the CSV download that yields null on any
    failure, the row parser, and the shape of the field it returns. The request URL and its
    timeout are not modelled; the response is an input. */
module GcoosField {
  import opened Wrappers
  import opened Js
  import Text
  import Normalize

  /** One wind vector: position and the two wind components, each `Number(field)`. */
  datatype Vector = Vector(lat: Num, lon: Num, u: Num, v: Num)

  /** The field's metadata. */
  datatype Meta = Meta(latStep: real, lonStep: real, description: string)

  /** The wind field `{ meta, vectors }`. */
  datatype WindField = WindField(meta: Meta, vectors: seq<Vector>)

  /** `fetchCsv(url)`: the body of a successful response, None (null) on any failure. */
  function FetchCsv(response: Upstream<string>): (r: Option<string>)
    ensures r.None? <==> response.Failed?
    ensures r.Some? ==> r.value == response.value
  {
    match response
    case Ok(body) => Some(body)
    case Failed(_) => None
  }

  // ------------------------------------------------------------------ splitting

  /** `s.split(c)` for a one-character separator. */
  function Split(s: string, c: char): (r: seq<string>)
    ensures |r| >= 1
  {
    if s == [] then [""]
    else
      var rest := Split(s[1..], c);
      if s[0] == c then [""] + rest else [[s[0]] + rest[0]] + rest[1..]
  }

  /** The number of times `c` occurs in `s`. */
  function Occurrences(s: string, c: char): nat {
    if s == [] then 0 else (if s[0] == c then 1 else 0) + Occurrences(s[1..], c)
  }

  /** There is one more piece than separators. */
  lemma {:induction false} SplitCount(s: string, c: char)
    ensures |Split(s, c)| == Occurrences(s, c) + 1
  {
    if s != [] {
      SplitCount(s[1..], c);
    }
  }

  /** The pieces hold no separator, and joining them with it gives back the string. */
  lemma {:induction false} SplitJoin(s: string, c: char)
    ensures forall i :: 0 <= i < |Split(s, c)| ==> c !in Split(s, c)[i]
    ensures Normalize.Join(Split(s, c), [c]) == s
  {
    if s != [] {
      var rest := Split(s[1..], c);
      SplitJoin(s[1..], c);
      assert s == [s[0]] + s[1..];
      if s[0] == c {
        assert Split(s, c) == [""] + rest;
        assert ([""] + rest)[1..] == rest;
      } else {
        var r := Split(s, c);
        assert r == [[s[0]] + rest[0]] + rest[1..];
        assert r[1..] == rest[1..];
        if |rest| > 1 {
          assert rest[1..][1..] == rest[2..];
        }
        forall i | 0 <= i < |r| ensures c !in r[i] {
          if i > 0 { assert r[i] == rest[i]; }
        }
      }
    }
  }

  /** `p` without one trailing carriage return. */
  function DropCarriageReturn(p: string): string {
    if p != [] && p[|p| - 1] == '\r' then p[..|p| - 1] else p
  }

  /** `text.split(/\r?\n/)`: split at line feeds, each with the carriage return before it. */
  function Lines(text: string): (r: seq<string>)
    ensures |r| == Occurrences(text, '\n') + 1
  {
    var parts := Split(text, '\n');
    SplitCount(text, '\n');
    seq(|parts|, i requires 0 <= i < |parts| => if i < |parts| - 1 then DropCarriageReturn(parts[i]) else parts[i])
  }

  // ------------------------------------------------------------------ parsing

  /** `Number` of the field at `i`; a missing field is `undefined`, which is NaN. */
  function FieldNumber(fields: seq<string>, i: nat): Num {
    if i < |fields| then NumberOf(fields[i]) else NaN
  }

  /** One row `time,lat,lon,u,v`: the time is ignored. */
  function RecordOf(line: string): Vector {
    RecordFrom(Split(line, ','))
  }

  /** The record read from the fields of a row. */
  function RecordFrom(f: seq<string>): Vector {
    Vector(FieldNumber(f, 1), FieldNumber(f, 2), FieldNumber(f, 3), FieldNumber(f, 4))
  }

  /** The first piece of a split is the text before the first separator. */
  lemma {:induction false} SplitAfterPiece(t: string, rest: string, c: char)
    requires c !in t
    ensures Split(t + [c] + rest, c) == [t] + Split(rest, c)
  {
    var s := t + [c] + rest;
    if t == [] {
      assert s == [c] + rest && s[1..] == rest;
    } else {
      assert s[1..] == t[1..] + [c] + rest;
      SplitAfterPiece(t[1..], rest, c);
      assert [t[0]] + t[1..] == t;
    }
  }

  /** The time field does not matter: rows that differ only in it give the same record. */
  lemma RecordIgnoresTime(time: string, other: string, rest: string)
    requires ',' !in time && ',' !in other
    ensures RecordOf(time + "," + rest) == RecordOf(other + "," + rest)
  {
    SplitAfterPiece(time, rest, ',');
    SplitAfterPiece(other, rest, ',');
    SameFieldsAfterFirst(time, other, Split(rest, ','));
  }

  /** Records of field lists that agree after the first field are the same. */
  lemma SameFieldsAfterFirst(x: string, y: string, fields: seq<string>)
    ensures RecordFrom([x] + fields) == RecordFrom([y] + fields)
  {
    var f, g := [x] + fields, [y] + fields;
    SameField(f, g, 1);
    SameField(f, g, 2);
    SameField(f, g, 3);
    SameField(f, g, 4);
  }

  lemma SameField(f: seq<string>, g: seq<string>, k: nat)
    requires 1 <= k && |f| == |g| >= 1 && f[1..] == g[1..]
    ensures FieldNumber(f, k) == FieldNumber(g, k)
  {
    if k < |f| {
      assert f[k] == f[1..][k - 1] == g[k];
    }
  }

  /** A row's fields after the time are read in order: latitude, longitude, u and v. */
  lemma RecordFields(time: string, lat: string, lon: string, u: string, v: string)
    requires ',' !in time && ',' !in lat && ',' !in lon && ',' !in u && ',' !in v
    ensures RecordOf(time + "," + (lat + "," + (lon + "," + (u + "," + v))))
      == Vector(NumberOf(lat), NumberOf(lon), NumberOf(u), NumberOf(v))
  {
    SplitRow(time, lat, lon, u, v);
  }

  /** A row of five comma-free fields splits into those fields. */
  lemma SplitRow(time: string, lat: string, lon: string, u: string, v: string)
    requires ',' !in time && ',' !in lat && ',' !in lon && ',' !in u && ',' !in v
    ensures Split(time + "," + (lat + "," + (lon + "," + (u + "," + v))), ',') == [time, lat, lon, u, v]
  {
    var uv := u + [','] + v;
    var lonuv := lon + [','] + uv;
    var rest := lat + [','] + lonuv;
    assert Split(uv, ',') == [u, v] by {
      SplitNone(v, ',');
      SplitAfterPiece(u, v, ',');
    }
    assert Split(lonuv, ',') == [lon, u, v] by {
      SplitAfterPiece(lon, uv, ',');
    }
    assert Split(rest, ',') == [lat, lon, u, v] by {
      SplitAfterPiece(lat, lonuv, ',');
    }
    assert Split(time + [','] + rest, ',') == [time, lat, lon, u, v] by {
      SplitAfterPiece(time, rest, ',');
    }
  }

  /** A text without the separator is one piece. */
  lemma {:induction false} SplitNone(s: string, c: char)
    requires c !in s
    ensures Split(s, c) == [s]
  {
    if s != [] {
      SplitNone(s[1..], c);
      assert [s[0]] + s[1..] == s;
    }
  }

  /** The records of `parseCsv(text)`: one per line of the trimmed text after the header. */
  function ParsedRecords(text: string): (r: seq<Vector>)
    ensures |r| == Occurrences(Text.Trim(text), '\n')
  {
    RowRecords(Lines(Text.Trim(text)))
  }

  /** One record per line after the header line. */
  function RowRecords(lines: seq<string>): (r: seq<Vector>)
    requires |lines| >= 1
    ensures |r| == |lines| - 1
  {
    seq(|lines| - 1, i requires 0 <= i < |lines| - 1 => RecordOf(lines[i + 1]))
  }

  /** `parseCsv`: splits the trimmed text into lines, then reads the rows after the header. */
  method ParseCsv(text: string) returns (records: seq<Vector>)
    ensures records == ParsedRecords(text)
  {
    records := ParseRows(Lines(Text.Trim(text)));
  }

  /** The row loop of `parseCsv`: record i comes from line i + 1. */
  method ParseRows(lines: seq<string>) returns (records: seq<Vector>)
    requires |lines| >= 1
    ensures records == RowRecords(lines)
  {
    records := [];
    var i := 1;
    while i < |lines|
      invariant 1 <= i <= |lines|
      invariant records == RowRecords(lines[..i])
    {
      RowRecordsSnoc(lines, i);
      records := records + [RecordOf(lines[i])];
      i := i + 1;
    }
    assert lines[..i] == lines;
  }

  /** One more line gives one more record, read from that line. */
  lemma RowRecordsSnoc(lines: seq<string>, i: nat)
    requires 1 <= i < |lines|
    ensures RowRecords(lines[..i + 1]) == RowRecords(lines[..i]) + [RecordOf(lines[i])]
  {
    var longer, shorter := RowRecords(lines[..i + 1]), RowRecords(lines[..i]);
    forall j | 0 <= j < i - 1 ensures longer[j] == shorter[j] {
      assert lines[..i + 1][j + 1] == lines[..i][j + 1];
    }
  }

  /** A header and two rows hold two line feeds, so they give two records. */
  lemma TwoRowsTwoRecords(h: string, a: string, b: string)
    requires '\n' !in h && '\n' !in a && '\n' !in b
    ensures Occurrences(h + "\n" + (a + "\n" + b), '\n') == 2
  {
    OccurrencesNone(b, '\n');
    OccurrencesAfterPiece(a, b, '\n');
    OccurrencesAfterPiece(h, a + "\n" + b, '\n');
  }

  /** A piece without `c` followed by `c` adds one occurrence. */
  lemma OccurrencesAfterPiece(t: string, rest: string, c: char)
    requires c !in t
    ensures Occurrences(t + [c] + rest, c) == 1 + Occurrences(rest, c)
  {
    OccurrencesConcat(t, [c] + rest, c);
    OccurrencesNone(t, c);
    assert t + [c] + rest == t + ([c] + rest);
    assert ([c] + rest)[1..] == rest;
  }

  /** Occurrences add up over a concatenation. */
  lemma {:induction false} OccurrencesConcat(s: string, t: string, c: char)
    ensures Occurrences(s + t, c) == Occurrences(s, c) + Occurrences(t, c)
  {
    if s == [] {
      assert s + t == t;
    } else {
      assert (s + t)[1..] == s[1..] + t;
      OccurrencesConcat(s[1..], t, c);
    }
  }

  /** A string without `c` has no occurrence of it. */
  lemma {:induction false} OccurrencesNone(s: string, c: char)
    requires c !in s
    ensures Occurrences(s, c) == 0
  {
    if s != [] {
      assert s[0] != c;
      OccurrencesNone(s[1..], c);
    }
  }

  // ------------------------------------------------------------------ the field

  /** The description of the field's source. */
  const Description: string := "GFS surface wind field via GCOOS ERDDAP"

  /** `getWindField()`: null when the download failed or returned an empty body; otherwise
      the parsed vectors with a quarter-degree grid. It never rejects. */
  function GetWindField(response: Upstream<string>): (r: Option<WindField>)
    ensures r.None? <==> FetchCsv(response).None? || FetchCsv(response).value == ""
    ensures r.Some? ==> r.value.meta.latStep == 0.25 && r.value.meta.lonStep == 0.25
    ensures r.Some? ==> r.value.vectors == ParsedRecords(response.value)
  {
    var csv := FetchCsv(response);
    if csv.None? || csv.value == "" then None
    else Some(WindField(Meta(0.25, 0.25, Description), ParsedRecords(csv.value)))
  }
}
