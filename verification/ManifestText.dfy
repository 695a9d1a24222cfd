/**
 The text of a manifest: how its records are printed, and how one array of it
 is replaced in place.
 */
module ManifestText {
  import opened Json
  import opened Text
  import opened ArrayScanner
  import opened RecordReader

  datatype Artifact = Artifact(path: string, bytes: nat, sha256: string)

  datatype Document =
    Document(specId: string, title: string, version: string, status: string, lastVerified: string, artifact: Artifact)

  // ----- Replacing an array -----

  function Marker(key: string): string {
    "\"" + key + "\": ["
  }

  // The array under the first occurrence of the key, from bracket to bracket.
  ghost predicate Located(contents: string, key: string, start: nat, end: nat) {
    && |Marker(key)| <= start + 1
    && FirstFrom(contents, Marker(key), 0, start + 1 - |Marker(key)|)
    && Closes(contents, start, end)
  }

  lemma LocatedOnce(contents: string, key: string, s: nat, e: nat, s': nat, e': nat)
    requires Located(contents, key, s, e) && Located(contents, key, s', e')
    ensures s == s' && e == e'
  {
    FirstFromStart(contents, Marker(key), s + 1 - |Marker(key)|);
    FirstFromStart(contents, Marker(key), s' + 1 - |Marker(key)|);
    ClosesOnce(contents, s, e, e');
  }

  ghost function Replace(contents: string, key: string, replacement: string): Option<string> {
    if exists start: nat, end: nat :: Located(contents, key, start, end) then
      var start: nat, end: nat :| Located(contents, key, start, end);
      Some(contents[..start] + replacement + contents[end + 1..])
    else None
  }

  lemma ReplaceIs(contents: string, key: string, replacement: string, start: nat, end: nat)
    requires Located(contents, key, start, end)
    ensures Replace(contents, key, replacement) == Some(contents[..start] + replacement + contents[end + 1..])
  {
    forall s: nat, e: nat | Located(contents, key, s, e) ensures s == start && e == end {
      LocatedOnce(contents, key, s, e, start, end);
    }
  }

  lemma MissingKey(contents: string, key: string)
    requires Find(contents, Marker(key), 0).None?
    ensures forall s: nat, e: nat :: !Located(contents, key, s, e)
  {
    forall s: nat, e: nat ensures !Located(contents, key, s, e) {
      if Located(contents, key, s, e) { FirstFromStart(contents, Marker(key), s + 1 - |Marker(key)|); }
    }
  }

  lemma FoundKey(contents: string, key: string, start: nat, s: nat, e: nat)
    requires |Marker(key)| <= start + 1 && Find(contents, Marker(key), 0) == Some(start + 1 - |Marker(key)|)
    ensures Located(contents, key, s, e) <==> s == start && Closes(contents, start, e)
  {
    FirstFromStart(contents, Marker(key), start + 1 - |Marker(key)|);
    if |Marker(key)| <= s + 1 { FirstFromStart(contents, Marker(key), s + 1 - |Marker(key)|); }
  }

  method LocateArray(contents: string, key: string) returns (found: bool, start: nat, end: nat)
    ensures found ==> Located(contents, key, start, end)
    ensures !found ==> forall s: nat, e: nat :: !Located(contents, key, s, e)
  {
    var at := Find(contents, Marker(key), 0);
    if at.None? {
      MissingKey(contents, key);
      return false, 0, 0;
    }
    start := at.value + |Marker(key)| - 1;
    var close := MatchingArrayEnd(contents, start);
    forall s: nat, e: nat ensures Located(contents, key, s, e) <==> s == start && Closes(contents, start, e) {
      FoundKey(contents, key, start, s, e);
    }
    if close.None? { return false, 0, 0; }
    return true, start, close.value;
  }

  method ReplaceJsonArray(contents: string, key: string, replacement: string) returns (r: Option<string>)
    ensures r == Replace(contents, key, replacement)
  {
    var found, start, end := LocateArray(contents, key);
    if !found { return None; }
    ReplaceIs(contents, key, replacement, start, end);
    var updated := contents[..start];
    updated := updated + replacement;
    updated := updated + contents[end + 1..];
    r := Some(updated);
  }

  // After an array was put in place, it is what the next replacement finds.
  lemma LocatedAgain(contents: string, key: string, start: nat, end: nat, t: string)
    requires Located(contents, key, start, end) && IsArray(t)
    ensures Located(contents[..start] + t + contents[end + 1..], key, start, start + |t| - 1)
  {
    var marker, at := Marker(key), start + 1 - |Marker(key)|;
    FirstFromStart(contents, marker, at);
    var once := contents[..start] + t + contents[end + 1..];
    ClosesArray(contents[..start], t, contents[end + 1..]);
    assert t[0] == '[' == marker[|marker| - 1];
    assert contents[at..at + |marker|][|marker| - 1] == contents[start];
    forall i | 0 <= i < at + |marker| ensures contents[i] == once[i] {
      if i == start { assert once[i] == t[0]; } else { assert once[i] == contents[..start][i]; }
    }
    assert contents[..at + |marker|] == once[..at + |marker|];
    FirstSame(contents, once, marker, at, at + |marker|);
    FirstFromStart(once, marker, at);
  }

  // A second replacement wins over the first, and the rest of the text stays.
  lemma ReplaceReplace(contents: string, key: string, first: string, second: string)
    requires IsArray(first) && Replace(contents, key, first).Some?
    ensures Replace(Replace(contents, key, first).value, key, second) == Replace(contents, key, second)
    ensures Replace(contents, key, second).Some?
  {
    var start: nat, end: nat :| Located(contents, key, start, end);
    ReplaceIs(contents, key, first, start, end);
    ReplaceIs(contents, key, second, start, end);
    var once := contents[..start] + first + contents[end + 1..];
    LocatedAgain(contents, key, start, end, first);
    ReplaceIs(once, key, second, start, start + |first| - 1);
    assert once[..start] == contents[..start];
    assert once[start + |first|..] == contents[end + 1..];
  }

  // Putting the old array back restores the text.
  lemma ReplaceUndone(contents: string, key: string, start: nat, end: nat, t: string)
    requires Located(contents, key, start, end) && IsArray(t)
    ensures Replace(Replace(contents, key, t).value, key, contents[start..end + 1]) == Some(contents)
  {
    ReplaceIs(contents, key, t, start, end);
    ReplaceReplace(contents, key, t, contents[start..end + 1]);
    ReplaceIs(contents, key, contents[start..end + 1], start, end);
    assert contents[..start] + contents[start..end + 1] + contents[end + 1..] == contents;
  }

  // ----- Printing strings and numbers -----

  function HexDigit(n: nat): char
    requires n < 16
  {
    if n < 10 then ('0' as int + n) as char else ('a' as int + n - 10) as char
  }

  function CharUnits(c: char): seq<Unit> {
    if c == '"' || c == '\\' then [Escape(c)]
    else if c == 8 as char then [Escape('b')]
    else if c == '\t' then [Escape('t')]
    else if c == '\n' then [Escape('n')]
    else if c == 12 as char then [Escape('f')]
    else if c == '\r' then [Escape('r')]
    else if c < ' ' then
      [Escape('u'), Char('0'), Char('0'), Char(HexDigit(c as int / 16)), Char(HexDigit(c as int % 16))]
    else [Char(c)]
  }

  function Units(s: string): seq<Unit> {
    if s == "" then [] else CharUnits(s[0]) + Units(s[1..])
  }

  function JsonString(s: string): string {
    Quoted(Units(s))
  }

  lemma CharUnitsWellformed(c: char)
    ensures forall u :: u in CharUnits(c) ==> Wellformed(u)
  {
  }

  lemma {:induction false} UnitsWellformed(s: string)
    ensures forall u :: u in Units(s) ==> Wellformed(u)
  {
    if s != "" {
      CharUnitsWellformed(s[0]);
      UnitsWellformed(s[1..]);
    }
  }

  lemma BalancedString(s: string)
    ensures Balanced(JsonString(s))
  {
    UnitsWellformed(s);
    BalancedQuoted(Units(s));
  }

  function Decimal(n: nat): string {
    var last := ('0' as int + n % 10) as char;
    if n < 10 then [last] else Decimal(n / 10) + [last]
  }

  lemma {:induction false} DecimalPlain(n: nat)
    ensures forall i :: 0 <= i < |Decimal(n)| ==> !Special(Decimal(n)[i])
  {
    if n >= 10 { DecimalPlain(n / 10); }
  }

  // ----- Printing the records -----

  const INDENT := "\n      "

  function ItemText(item: Item): string {
    match item
    case Word(s) => JsonString(s)
    case Count(n) => Decimal(n)
  }

  function EntryText(e: Entry): string {
    INDENT + JsonString(e.name) + ": " + ItemText(e.item)
  }

  function EntryTexts(es: seq<Entry>): (r: seq<string>)
    ensures |r| == |es| && forall i :: 0 <= i < |es| ==> r[i] == EntryText(es[i])
  {
    seq(|es|, i requires 0 <= i < |es| => EntryText(es[i]))
  }

  function ObjectText(es: seq<Entry>): string {
    "    {" + Joined(EntryTexts(es), ",") + "\n    }"
  }

  function Enclosed(body: string): string {
    "[\n" + body + "\n  ]"
  }

  function Texts(objects: seq<seq<Entry>>): seq<string> {
    seq(|objects|, i requires 0 <= i < |objects| => ObjectText(objects[i]))
  }

  function ArrayText(objects: seq<seq<Entry>>): string {
    Enclosed(Joined(Texts(objects), ",\n"))
  }

  function ArtifactEntries(a: Artifact): seq<Entry> {
    [Entry("path", Word(a.path)), Entry("bytes", Count(a.bytes)), Entry("sha256", Word(a.sha256))]
  }

  function DocumentEntries(d: Document): seq<Entry> {
    [Entry("spec_id", Word(d.specId)), Entry("title", Word(d.title)), Entry("version", Word(d.version)),
     Entry("status", Word(d.status)), Entry("last_verified", Word(d.lastVerified))]
    + ArtifactEntries(d.artifact)
  }

  function Artifacts(records: seq<Artifact>): (r: seq<seq<Entry>>)
    ensures |r| == |records| && forall i :: 0 <= i < |r| ==> r[i] == ArtifactEntries(records[i])
  {
    seq(|records|, i requires 0 <= i < |records| => ArtifactEntries(records[i]))
  }

  function Documents(records: seq<Document>): (r: seq<seq<Entry>>)
    ensures |r| == |records| && forall i :: 0 <= i < |r| ==> r[i] == DocumentEntries(records[i])
  {
    seq(|records|, i requires 0 <= i < |records| => DocumentEntries(records[i]))
  }

  method PushParts(start: string, parts: seq<string>, sep: string) returns (r: string)
    ensures r == start + Joined(parts, sep)
  {
    r := start;
    for i := 0 to |parts|
      invariant r == start + Joined(parts[..i], sep)
    {
      PushPart(start, r, parts, i, sep);
      if i > 0 {
        r := r + sep;
      }
      r := r + parts[i];
    }
    assert parts[..|parts|] == parts;
  }

  method RenderObject(output: string, es: seq<Entry>) returns (r: string)
    ensures r == output + ObjectText(es)
  {
    r := PushParts(output + "    {", EntryTexts(es), ",");
    r := r + "\n    }";
  }

  method RenderRecords(objects: seq<seq<Entry>>) returns (output: string)
    ensures output == ArrayText(objects)
  {
    var start := "[\n";
    output := start;
    ghost var parts := Texts(objects);
    for i := 0 to |objects|
      invariant output == start + Joined(parts[..i], ",\n")
    {
      PushPart(start, output, parts, i, ",\n");
      if i > 0 {
        output := output + ",\n";
      }
      output := RenderObject(output, objects[i]);
    }
    assert parts[..|parts|] == parts;
    output := output + "\n  ]";
  }

  method RenderArtifactRecords(records: seq<Artifact>) returns (output: string)
    ensures output == ArrayText(Artifacts(records))
  {
    output := RenderRecords(Artifacts(records));
  }

  method RenderDocumentRecords(records: seq<Document>) returns (output: string)
    ensures output == ArrayText(Documents(records))
  {
    output := RenderRecords(Documents(records));
  }

  lemma PushPart(start: string, output: string, parts: seq<string>, i: nat, sep: string)
    requires i < |parts| && output == start + Joined(parts[..i], sep)
    ensures (if i > 0 then output + sep else output) + parts[i] == start + Joined(parts[..i + 1], sep)
  {
    assert parts[..i + 1][..i] == parts[..i];
  }

  // ----- What is printed is one array to the scanner -----

  lemma BalancedEntry(e: Entry)
    ensures Balanced(EntryText(e))
  {
    match e.item {
      case Word(s) => BalancedString(s);
      case Count(n) => DecimalPlain(n); BalancedPlain(Decimal(n));
    }
    BalancedPlain(INDENT);
    BalancedString(e.name);
    BalancedConcat(INDENT, JsonString(e.name));
    BalancedPlain(": ");
    BalancedConcat(INDENT + JsonString(e.name), ": ");
    BalancedConcat(INDENT + JsonString(e.name) + ": ", ItemText(e.item));
  }

  lemma {:induction false} BalancedJoined(parts: seq<string>, sep: string)
    requires Balanced(sep) && forall i :: 0 <= i < |parts| ==> Balanced(parts[i])
    ensures Balanced(Joined(parts, sep))
  {
    if parts == [] {
      BalancedEmpty();
    } else if |parts| > 1 {
      var front, last := parts[..|parts| - 1], parts[|parts| - 1];
      BalancedJoined(front, sep);
      BalancedConcat(Joined(front, sep), sep);
      BalancedConcat(Joined(front, sep) + sep, last);
    }
  }

  lemma BalancedObject(es: seq<Entry>)
    ensures Balanced(ObjectText(es))
  {
    var parts := EntryTexts(es);
    forall i | 0 <= i < |es| ensures Balanced(parts[i]) { BalancedEntry(es[i]); }
    BalancedPlain(",");
    BalancedJoined(parts, ",");
    BalancedPlain("    {");
    BalancedPlain("\n    }");
    BalancedConcat("    {", Joined(parts, ","));
    BalancedConcat("    {" + Joined(parts, ","), "\n    }");
  }

  lemma EnclosedIsArray(body: string)
    requires Balanced(body)
    ensures IsArray(Enclosed(body))
  {
    var inner := "\n" + body + "\n  ";
    BalancedPlain("\n");
    BalancedPlain("\n  ");
    BalancedConcat("\n", body);
    BalancedConcat("\n" + body, "\n  ");
    assert Enclosed(body) == "[" + inner + "]";
  }

  // Whatever the strings in them are, the printed records are one array to the scanner.
  lemma RecordsAreArray(objects: seq<seq<Entry>>)
    ensures IsArray(ArrayText(objects))
  {
    forall i | 0 <= i < |objects| ensures Balanced(Texts(objects)[i]) { BalancedObject(objects[i]); }
    BalancedPlain(",\n");
    BalancedJoined(Texts(objects), ",\n");
    EnclosedIsArray(Joined(Texts(objects), ",\n"));
  }

  // Refreshing the records of a manifest twice is refreshing them once, with the later ones.
  lemma RefreshTwice(contents: string, key: string, first: seq<seq<Entry>>, second: seq<seq<Entry>>)
    requires Replace(contents, key, ArrayText(first)).Some?
    ensures Replace(Replace(contents, key, ArrayText(first)).value, key, ArrayText(second))
            == Replace(contents, key, ArrayText(second))
  {
    RecordsAreArray(first);
    ReplaceReplace(contents, key, ArrayText(first), ArrayText(second));
  }
}
