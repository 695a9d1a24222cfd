/**
 How a manifest looks: the text that an array, a count and a record stand in.
 */
module ManifestLayout {
  import opened Json
  import opened Text
  import opened ArrayScanner
  import opened RecordReader
  import opened ManifestText
  import opened ManifestReadBack
  import opened ManifestCounts
  import opened ManifestMarkers
  import opened ManifestSlots

  function Field(key: string): string {
    ['"'] + key + ['"', ':', ' ']
  }

  lemma FirstQuote(before: string, marker: string, rest: string)
    requires '"' !in before && marker != "" && marker[0] == '"'
    ensures FirstFrom(before + marker + rest, marker, 0, |before|)
  {
    var t := before + marker + rest;
    assert t[|before|..|before| + |marker|] == marker;
    forall i | 0 <= i < |before| ensures !Matches(t, marker, i) {
      assert t[i] == before[i] && t[i] != '"';
      if i + |marker| <= |t| { assert t[i..i + |marker|][0] == t[i]; }
    }
    FirstFromStart(t, marker, |before|);
  }

  // The array behind `"key": ` is exchanged, and nothing else.
  lemma ReplaceText(before: string, key: string, a: string, after: string, t: string)
    requires '"' !in before && IsArray(a)
    ensures Replace(before + Field(key) + a + after, key, t) == Some(before + Field(key) + t + after)
  {
    var text, marker := before + Field(key) + a + after, Marker(key);
    assert marker == Field(key) + ['['];
    assert a == ['['] + a[1..];
    assert text == before + marker + (a[1..] + after);
    FirstQuote(before, marker, a[1..] + after);
    ClosesArray(before + Field(key), a, after);
    var start := |before + Field(key)|;
    assert Located(text, key, start, start + |a| - 1);
    ReplaceIs(text, key, t, start, start + |a| - 1);
    assert text[..start] == before + Field(key) && text[start + |a|..] == after;
  }

  // The digits behind `"key": ` are exchanged, and nothing else.
  lemma CountText(before: string, key: string, digits: string, after: string, n: nat)
    requires '"' !in before && digits != "" && AllDigits(digits) && (after == "" || !Digit(after[0]))
    ensures ReplaceCount(before + Field(key) + digits + after, key, n) == Some(before + Field(key) + Decimal(n) + after)
  {
    var text, marker := before + Field(key) + digits + after, CountMarker(key);
    assert marker == Field(key);
    assert text == before + marker + (digits + after);
    FirstQuote(before, marker, digits + after);
    var start := |before + Field(key)|;
    forall i | start <= i < start + |digits| ensures Digit(text[i]) { assert text[i] == digits[i - start]; }
    assert Counted(text, key, start, start + |digits|);
    ReplaceCountIs(text, key, n, start, start + |digits|);
    assert text[..start] == before + Field(key) && text[start + |digits|..] == after;
  }

  // ----- Records

  // A member on its own line, six blanks in.
  function LineOf(name: string, value: string): string {
    ['\n', ' ', ' ', ' ', ' ', ' ', ' '] + Field(name) + value
  }

  lemma MemberText(name: string, item: Item)
    requires Simple(name)
    ensures EntryText(Entry(name, item)) == LineOf(name, ItemText(item))
  {
    SimpleText(name);
    assert JsonString(name) == "\"" + name + "\"";
    assert INDENT == ['\n', ' ', ' ', ' ', ' ', ' ', ' '];
  }

  lemma ThreeJoined(a: string, b: string, c: string)
    ensures Joined([a, b, c], ",") == a + "," + b + "," + c
  {
    JoinedFirst([a, b, c], ",");
    assert [a, b, c][1..] == [b, c];
    JoinedFirst([b, c], ",");
    assert [b, c][1..] == [c];
  }

  lemma NamesSimple()
    ensures Simple("path") && Simple("bytes") && Simple("sha256")
  {
  }

  lemma ThreeMembers(es: seq<Entry>, a: string, b: string, c: string)
    requires |es| == 3 && EntryText(es[0]) == a && EntryText(es[1]) == b && EntryText(es[2]) == c
    ensures ObjectText(es) == "    {" + (a + "," + b + "," + c) + "\n    }"
  {
    assert EntryTexts(es) == [a, b, c];
    ThreeJoined(a, b, c);
  }

  // A record of a file: its path, its size and its digest, under these names and in this order.
  lemma ArtifactText(a: Artifact)
    ensures ObjectText(ArtifactEntries(a)) ==
            "    {" + (LineOf("path", JsonString(a.path)) + "," + LineOf("bytes", Decimal(a.bytes)) + ","
                       + LineOf("sha256", JsonString(a.sha256))) + "\n    }"
  {
    NamesSimple();
    MemberText("path", Word(a.path));
    MemberText("bytes", Count(a.bytes));
    MemberText("sha256", Word(a.sha256));
    ThreeMembers(ArtifactEntries(a), LineOf("path", JsonString(a.path)), LineOf("bytes", Decimal(a.bytes)),
                 LineOf("sha256", JsonString(a.sha256)));
  }

  // An array of records reads as their fields.
  lemma ArtifactsRead(records: seq<Artifact>, rest: string)
    ensures var r := ReadArray(ArrayText(Artifacts(records)) + rest);
            && r.Some? && r.value.1 == rest && |r.value.0| == |records|
            && forall i :: 0 <= i < |records| ==>
                 r.value.0[i] == [Entry("path", Word(records[i].path)), Entry("bytes", Count(records[i].bytes)),
                                  Entry("sha256", Word(records[i].sha256))]
  {
    ArrayBack(Artifacts(records), rest);
  }

  function DocumentFields(d: Document): seq<Entry> {
    [Entry("spec_id", Word(d.specId)), Entry("title", Word(d.title)), Entry("version", Word(d.version)),
     Entry("status", Word(d.status)), Entry("last_verified", Word(d.lastVerified)), Entry("path", Word(d.artifact.path)),
     Entry("bytes", Count(d.artifact.bytes)), Entry("sha256", Word(d.artifact.sha256))]
  }

  lemma DocumentsRead(records: seq<Document>, rest: string)
    ensures var r := ReadArray(ArrayText(Documents(records)) + rest);
            && r.Some? && r.value.1 == rest && |r.value.0| == |records|
            && forall i :: 0 <= i < |records| ==>
                 r.value.0[i] == DocumentFields(records[i])
  {
    ArrayBack(Documents(records), rest);
    forall i | 0 <= i < |records| ensures Documents(records)[i] == DocumentFields(records[i]) { DocumentIs(records[i]); }
  }

  lemma DocumentIs(d: Document)
    ensures DocumentEntries(d) == DocumentFields(d)
  {
  }
}
