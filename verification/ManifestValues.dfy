/**
 Manifest texts as values: a frame, the records in its array and its counts. A refresh of the
 text is the change of the value that the archive makes, and the text changes exactly when
 the value does.
 */
module ManifestValues {
  import opened Json
  import opened Seqs
  import opened RecordReader
  import opened ManifestText
  import opened ManifestReadBack
  import opened ManifestCounts
  import opened ManifestMarkers
  import opened ManifestRefresh
  import Archive

  function Tallies(keys: seq<string>, counts: seq<nat>): (r: seq<Tally>)
    requires |keys| == |counts|
    ensures |r| == |keys| && KeysOf(r) == keys
  {
    seq(|keys|, i requires 0 <= i < |keys| => Tally(keys[i], counts[i]))
  }

  function Zeros(keys: seq<string>): (r: seq<Tally>)
    ensures KeysOf(r) == keys
  {
    seq(|keys|, i requires 0 <= i < |keys| => Tally(keys[i], 0))
  }

  /** The text with an empty array and zero counts. */
  ghost function Frame(text: string, key: string, keys: seq<string>): Option<string> {
    RefreshText(text, key, [], Zeros(keys))
  }

  /** The text shows these records and counts in that frame. */
  ghost predicate Shows(text: string, key: string, keys: seq<string>, frame: string,
                        objects: seq<seq<Entry>>, counts: seq<nat>)
  {
    && |keys| == |counts|
    && Frame(text, key, keys) == Some(frame)
    && RefreshText(text, key, objects, Tallies(keys, counts)) == Some(text)
  }

  lemma NothingIn(keys: seq<string>)
    ensures NoFields([], keys)
  {
  }

  /** A refresh shows the new records and counts in the old frame. */
  lemma ShowsRefreshed(text: string, key: string, keys: seq<string>, frame: string,
                       objects: seq<seq<Entry>>, counts: seq<nat>)
    requires Frame(text, key, keys) == Some(frame) && Proper(key, keys, objects) && |keys| == |counts|
    ensures var r := RefreshText(text, key, objects, Tallies(keys, counts));
            r.Some? && Shows(r.value, key, keys, frame, objects, counts)
  {
    var t := Tallies(keys, counts);
    NothingIn(keys);
    LastRefreshWins(text, key, [], Zeros(keys), objects, t);
    LastRefreshWins(text, key, objects, t, [], Zeros(keys));
    RefreshIdempotent(text, key, objects, t);
  }

  /** What a text shows determines it. */
  lemma ShownOnce(text: string, other: string, key: string, keys: seq<string>, frame: string,
                  objects: seq<seq<Entry>>, counts: seq<nat>)
    requires Proper(key, keys, objects)
    requires Shows(text, key, keys, frame, objects, counts) && Shows(other, key, keys, frame, objects, counts)
    ensures text == other
  {
    NothingIn(keys);
    LastRefreshWins(text, key, [], Zeros(keys), objects, Tallies(keys, counts));
    LastRefreshWins(other, key, [], Zeros(keys), objects, Tallies(keys, counts));
  }

  lemma SameArray(text: string, key: string, a: seq<seq<Entry>>, b: seq<seq<Entry>>)
    requires Replace(text, key, ArrayText(a)) == Some(text) && Replace(text, key, ArrayText(b)) == Some(text)
    ensures a == b
  {
    var u: nat, w: nat :| Located(text, key, u, w);
    ReplaceIs(text, key, ArrayText(a), u, w);
    ReplaceIs(text, key, ArrayText(b), u, w);
    SpliceSame(text, u, w + 1, ArrayText(a));
    SpliceSame(text, u, w + 1, ArrayText(b));
    ArrayBack(a, "");
    ArrayBack(b, "");
  }

  lemma SameCount(text: string, k: string, n: nat, m: nat)
    requires ReplaceCount(text, k, n) == Some(text) && ReplaceCount(text, k, m) == Some(text)
    ensures n == m
  {
    var s: nat, e: nat :| Counted(text, k, s, e);
    ReplaceCountIs(text, k, n, s, e);
    ReplaceCountIs(text, k, m, s, e);
    SpliceSame(text, s, e, Decimal(n));
    SpliceSame(text, s, e, Decimal(m));
    DecimalBack(n, "");
    DecimalBack(m, "");
  }

  /** A text shows one list of records and one list of counts. */
  lemma ShowsOnce(text: string, key: string, keys: seq<string>, frame: string, a: seq<seq<Entry>>, m: seq<nat>,
                  other: string, b: seq<seq<Entry>>, n: seq<nat>)
    requires Proper(key, keys, a) && Proper(key, keys, b)
    requires Shows(text, key, keys, frame, a, m) && Shows(text, key, keys, other, b, n)
    ensures frame == other && a == b && m == n
  {
    var s, t := Tallies(keys, m), Tallies(keys, n);
    RecordsStand(text, key, a, s);
    RecordsStand(text, key, b, t);
    SameArray(text, key, a, b);
    forall i | 0 <= i < |m| ensures m[i] == n[i] {
      CountsStand(Replace(text, key, ArrayText(a)).value, s, i);
      CountsStand(Replace(text, key, ArrayText(b)).value, t, i);
      SameCount(text, keys[i], m[i], n[i]);
    }
  }

  // ----- The manifests of the archive

  /** How paths are written. */
  ghost predicate Injective(name: Archive.Path -> string) {
    forall p, q :: name(p) == name(q) ==> p == q
  }

  function ArtifactOf(name: Archive.Path -> string, r: Archive.Record): Artifact {
    Artifact(name(r.path), r.bytes, r.sha256)
  }

  function RecordObjects(name: Archive.Path -> string, records: seq<Archive.Record>): (r: seq<seq<Entry>>)
    ensures |r| == |records| && forall i :: 0 <= i < |r| ==> r[i] == ArtifactEntries(ArtifactOf(name, records[i]))
  {
    seq(|records|, i requires 0 <= i < |records| => ArtifactEntries(ArtifactOf(name, records[i])))
  }

  function DocumentItem(name: Archive.Path -> string, d: Archive.Document): Document {
    Document(d.front.specId, d.front.title, d.front.version, d.front.status, d.front.lastVerified,
             ArtifactOf(name, d.record))
  }

  function DocumentObjects(name: Archive.Path -> string, documents: seq<Archive.Document>): (r: seq<seq<Entry>>)
    ensures |r| == |documents| && forall i :: 0 <= i < |r| ==> r[i] == DocumentEntries(DocumentItem(name, documents[i]))
  {
    seq(|documents|, i requires 0 <= i < |documents| => DocumentEntries(DocumentItem(name, documents[i])))
  }

  const FILES := "files"
  const DOCUMENTS := "documents"

  /** The counts of a manifest are under plain keys, each once, none of them a field of a record. */
  ghost predicate Usable(keys: seq<string>) {
    PlainKeys(keys) && Distinct(keys) && "path" !in keys && "bytes" !in keys && "sha256" !in keys
  }

  lemma SimpleFields()
    ensures Simple("path") && Simple("bytes") && Simple("sha256") && PlainKey(FILES) && PlainKey(DOCUMENTS)
  {
  }

  /** The keys of the counts, in the order they are written. */
  function CountKey(i: nat): string
    requires i < 10
  {
    match i
    case 0 => "files_excluding_manifest_and_checksums"
    case 1 => "markdown_documents"
    case 2 => "numbered_specs"
    case 3 => "adrs"
    case 4 => "modules"
    case 5 => "profiles"
    case 6 => "acceptance_criteria"
    case 7 => "tasks"
    case 8 => "recommendations"
    case 9 => "research_sources"
  }

  function CountKeys(s: Archive.Suite): seq<string> {
    seq(if s.Base? then 10 else 4, i requires 0 <= i < 10 => CountKey(i))
  }

  lemma PlainShort()
    ensures PlainKey("adrs") && PlainKey("modules") && PlainKey("profiles") && PlainKey("tasks")
  {
  }

  lemma PlainMiddle()
    ensures PlainKey("numbered_specs") && PlainKey("recommendations") && PlainKey("research_sources")
  {
  }

  lemma PlainLong()
    ensures PlainKey("markdown_documents") && PlainKey("acceptance_criteria")
  {
  }

  lemma PlainLongest()
    ensures PlainKey("files_excluding_manifest_and_checksums")
  {
  }

  lemma CountKeyPlain(i: nat)
    requires i < 10
    ensures PlainKey(CountKey(i))
  {
    PlainShort();
    PlainMiddle();
    PlainLong();
    PlainLongest();
  }

  lemma CountKeyNoField(i: nat)
    requires i < 10
    ensures CountKey(i) != "path" && CountKey(i) != "bytes" && CountKey(i) != "sha256"
  {
    assert |CountKey(i)| > 6 || CountKey(i)[0] == 'a' || CountKey(i)[0] == 't';
  }

  lemma CountKeysDiffer(i: nat, j: nat)
    requires i < j < 10
    ensures CountKey(i) != CountKey(j)
  {
    assert |CountKey(i)| != |CountKey(j)|;
  }

  /** The keys that are used are usable. */
  lemma CountKeysUsable(s: Archive.Suite)
    ensures Usable(CountKeys(s))
  {
    var keys := CountKeys(s);
    forall i | 0 <= i < |keys| ensures PlainKey(keys[i]) && keys[i] != "path" && keys[i] != "bytes" && keys[i] != "sha256" {
      CountKeyPlain(i);
      CountKeyNoField(i);
    }
    forall i, j | 0 <= i < j < |keys| ensures keys[i] != keys[j] { CountKeysDiffer(i, j); }
  }

  lemma RecordsProper(name: Archive.Path -> string, records: seq<Archive.Record>, keys: seq<string>)
    requires Usable(keys)
    ensures Proper(FILES, keys, RecordObjects(name, records))
  {
    SimpleFields();
    var objects := RecordObjects(name, records);
    forall k | 0 <= k < |keys| ensures NoField(objects, keys[k]) {
      forall i, j | 0 <= i < |objects| && 0 <= j < |objects[i]|
        ensures Simple(objects[i][j].name) && objects[i][j].name != keys[k]
      {
        assert objects[i] == ArtifactEntries(ArtifactOf(name, records[i]));
      }
    }
  }

  lemma DocumentsProper(name: Archive.Path -> string, documents: seq<Archive.Document>)
    ensures Proper(DOCUMENTS, [], DocumentObjects(name, documents))
  {
    SimpleFields();
  }

  lemma SameRecord(name: Archive.Path -> string, a: Archive.Record, b: Archive.Record)
    requires Injective(name) && ArtifactEntries(ArtifactOf(name, a)) == ArtifactEntries(ArtifactOf(name, b))
    ensures a == b
  {
    SameArtifact(ArtifactOf(name, a), ArtifactOf(name, b));
  }

  lemma SameRecords(name: Archive.Path -> string, a: seq<Archive.Record>, b: seq<Archive.Record>)
    requires Injective(name) && RecordObjects(name, a) == RecordObjects(name, b)
    ensures a == b
  {
    assert |a| == |RecordObjects(name, a)| == |b|;
    forall i | 0 <= i < |a| ensures a[i] == b[i] {
      assert RecordObjects(name, a)[i] == RecordObjects(name, b)[i];
      SameRecord(name, a[i], b[i]);
    }
  }

  /** The text of a manifest value. */
  ghost predicate TextOf(name: Archive.Path -> string, keys: seq<string>, text: string, m: Archive.Content) {
    m.ManifestFile? && Shows(text, FILES, keys, m.frame, RecordObjects(name, m.records), m.counts)
  }

  /** Refreshing the text is what the archive does to the value. */
  lemma TextFollowsValue(name: Archive.Path -> string, keys: seq<string>, text: string, m: Archive.Content,
                         records: seq<Archive.Record>, counts: seq<nat>)
    requires Usable(keys) && Injective(name) && TextOf(name, keys, text, m) && |counts| == |keys|
    ensures var r := RefreshText(text, FILES, RecordObjects(name, records), Tallies(keys, counts));
            var value := Archive.ManifestFile(m.frame, records, counts);
            r.Some? && TextOf(name, keys, r.value, value) && (r.value == text <==> value == m)
  {
    RecordsProper(name, records, keys);
    RecordsProper(name, m.records, keys);
    ShowsRefreshed(text, FILES, keys, m.frame, RecordObjects(name, records), counts);
    var r := RefreshText(text, FILES, RecordObjects(name, records), Tallies(keys, counts)).value;
    if r == text {
      ShowsOnce(text, FILES, keys, m.frame, RecordObjects(name, m.records), m.counts,
                m.frame, RecordObjects(name, records), counts);
      SameRecords(name, m.records, records);
    }
  }

  /** The archive computes a count for each key. */
  lemma CountsFit(t: Archive.Tools, s: Archive.Suite, paths: seq<Archive.Path>, inputs: Archive.Files)
    requires Archive.CountsOf(t, s, paths, inputs).Some?
    ensures |Archive.CountsOf(t, s, paths, inputs).value| == |CountKeys(s)|
  {
  }

  /** What the archive writes for a manifest is the refresh of its text. */
  lemma ManifestStep(t: Archive.Tools, name: Archive.Path -> string, s: Archive.Suite, files: Archive.Files,
                     order: seq<Archive.Path>, text: string)
    requires Injective(name) && Archive.Manifest(s) in files
    requires TextOf(name, CountKeys(s), text, files[Archive.Manifest(s)])
    requires Archive.ContentOf(t, Archive.Manifest(s), files, order).Some?
    ensures var m, c := files[Archive.Manifest(s)], Archive.ContentOf(t, Archive.Manifest(s), files, order).value;
            && c.ManifestFile? && |c.counts| == |CountKeys(s)|
            && var r := RefreshText(text, FILES, RecordObjects(name, c.records), Tallies(CountKeys(s), c.counts));
               r.Some? && TextOf(name, CountKeys(s), r.value, c) && (r.value == text <==> c == m)
  {
    var m, c := files[Archive.Manifest(s)], Archive.ContentOf(t, Archive.Manifest(s), files, order).value;
    CountsFit(t, s, Archive.PathsOf(files, s).value, Archive.Inputs(files));
    CountKeysUsable(s);
    TextFollowsValue(name, CountKeys(s), text, m, c.records, c.counts);
  }

  /** One value has one text. */
  lemma TextOnce(name: Archive.Path -> string, keys: seq<string>, text: string, other: string, m: Archive.Content)
    requires Usable(keys) && TextOf(name, keys, text, m) && TextOf(name, keys, other, m)
    ensures text == other
  {
    RecordsProper(name, m.records, keys);
    ShownOnce(text, other, FILES, keys, m.frame, RecordObjects(name, m.records), m.counts);
  }

  // ----- The document manifest

  lemma SameDocument(name: Archive.Path -> string, a: Archive.Document, b: Archive.Document)
    requires Injective(name) && DocumentEntries(DocumentItem(name, a)) == DocumentEntries(DocumentItem(name, b))
    ensures a == b
  {
    var x, y := DocumentEntries(DocumentItem(name, a)), DocumentEntries(DocumentItem(name, b));
    assert x[5..] == ArtifactEntries(ArtifactOf(name, a.record)) && y[5..] == ArtifactEntries(ArtifactOf(name, b.record));
    SameRecord(name, a.record, b.record);
    assert x[0] == y[0] && x[1] == y[1] && x[2] == y[2] && x[3] == y[3] && x[4] == y[4];
  }

  lemma SameDocuments(name: Archive.Path -> string, a: seq<Archive.Document>, b: seq<Archive.Document>)
    requires Injective(name) && DocumentObjects(name, a) == DocumentObjects(name, b)
    ensures a == b
  {
    assert |a| == |DocumentObjects(name, a)| == |b|;
    forall i | 0 <= i < |a| ensures a[i] == b[i] {
      assert DocumentObjects(name, a)[i] == DocumentObjects(name, b)[i];
      SameDocument(name, a[i], b[i]);
    }
  }

  ghost predicate DocumentTextOf(name: Archive.Path -> string, text: string, m: Archive.Content) {
    m.SpecFile? && Shows(text, DOCUMENTS, [], m.frame, DocumentObjects(name, m.documents), [])
  }

  lemma DocumentTextFollowsValue(name: Archive.Path -> string, text: string, m: Archive.Content,
                                 documents: seq<Archive.Document>)
    requires Injective(name) && DocumentTextOf(name, text, m)
    ensures var r := RefreshText(text, DOCUMENTS, DocumentObjects(name, documents), []);
            var value := Archive.SpecFile(m.frame, documents);
            r.Some? && DocumentTextOf(name, r.value, value) && (r.value == text <==> value == m)
  {
    DocumentsProper(name, documents);
    DocumentsProper(name, m.documents);
    assert Tallies([], []) == [];
    ShowsRefreshed(text, DOCUMENTS, [], m.frame, DocumentObjects(name, documents), []);
    var r := RefreshText(text, DOCUMENTS, DocumentObjects(name, documents), []).value;
    if r == text {
      ShowsOnce(text, DOCUMENTS, [], m.frame, DocumentObjects(name, m.documents), [],
                m.frame, DocumentObjects(name, documents), []);
      SameDocuments(name, m.documents, documents);
    }
  }

  // ----- Which count stands under which key

  lemma TotalKeys()
    ensures CountKey(4) == "modules" && CountKey(5) == "profiles" && CountKey(6) == "acceptance_criteria"
    ensures CountKey(7) == "tasks" && CountKey(8) == "recommendations" && CountKey(9) == "research_sources"
  {
  }

  lemma OwnKeys()
    ensures CountKey(0) == "files_excluding_manifest_and_checksums" && CountKey(1) == "markdown_documents"
    ensures CountKey(2) == "numbered_specs" && CountKey(3) == "adrs"
  {
  }

  ghost predicate Under(keys: seq<string>, counts: seq<nat>, key: string, n: nat) {
    exists i :: 0 <= i < |keys| && i < |counts| && keys[i] == key && counts[i] == n
  }

  /** Of every manifest: the number of listed files, and of those that are Markdown files, numbered
      specifications and decision records. */
  lemma OwnCountsUnder(t: Archive.Tools, s: Archive.Suite, paths: seq<Archive.Path>, inputs: Archive.Files)
    requires Archive.CountsOf(t, s, paths, inputs).Some?
    ensures var counts := Archive.CountsOf(t, s, paths, inputs).value;
            && Under(CountKeys(s), counts, "files_excluding_manifest_and_checksums", |paths|)
            && Under(CountKeys(s), counts, "markdown_documents", Archive.CountOf(paths, Archive.IsMarkdown))
            && Under(CountKeys(s), counts, "numbered_specs", Archive.CountOf(paths, Archive.IsNumbered))
            && Under(CountKeys(s), counts, "adrs", Archive.CountOf(paths, Archive.IsAdr))
  {
    OwnKeys();
    OwnCountsAt(t, s, paths, inputs);
    var counts := Archive.CountsOf(t, s, paths, inputs).value;
    UnderAt(s, counts, 0);
    UnderAt(s, counts, 1);
    UnderAt(s, counts, 2);
    UnderAt(s, counts, 3);
  }

  lemma OwnCountsAt(t: Archive.Tools, s: Archive.Suite, paths: seq<Archive.Path>, inputs: Archive.Files)
    requires Archive.CountsOf(t, s, paths, inputs).Some?
    ensures var counts := Archive.CountsOf(t, s, paths, inputs).value;
            && |counts| >= 4 && counts[0] == |paths| && counts[1] == Archive.CountOf(paths, Archive.IsMarkdown)
            && counts[2] == Archive.CountOf(paths, Archive.IsNumbered) && counts[3] == Archive.CountOf(paths, Archive.IsAdr)
  {
  }

  lemma UnderAt(s: Archive.Suite, counts: seq<nat>, i: nat)
    requires i < |CountKeys(s)| && i < |counts| && i < 10
    ensures Under(CountKeys(s), counts, CountKey(i), counts[i])
  {
    assert CountKeys(s)[i] == CountKey(i);
  }

  /** Of the base manifest also the totals. */
  lemma TotalsUnder(t: Archive.Tools, paths: seq<Archive.Path>, inputs: Archive.Files)
    requires t.totals(inputs).Some?
    ensures Archive.CountsOf(t, Archive.Base, paths, inputs).Some?
    ensures var x, keys := t.totals(inputs).value, CountKeys(Archive.Base);
            var counts := Archive.CountsOf(t, Archive.Base, paths, inputs).value;
            && Under(keys, counts, "modules", x.modules) && Under(keys, counts, "profiles", x.profiles)
            && Under(keys, counts, "acceptance_criteria", x.criteria) && Under(keys, counts, "tasks", x.tasks)
            && Under(keys, counts, "recommendations", x.recommendations) && Under(keys, counts, "research_sources", x.sources)
  {
    TotalKeys();
    var x, counts := t.totals(inputs).value, Archive.CountsOf(t, Archive.Base, paths, inputs).value;
    assert counts[4] == x.modules && counts[5] == x.profiles && counts[6] == x.criteria;
    assert counts[7] == x.tasks && counts[8] == x.recommendations && counts[9] == x.sources;
    UnderAt(Archive.Base, counts, 4);
    UnderAt(Archive.Base, counts, 5);
    UnderAt(Archive.Base, counts, 6);
    UnderAt(Archive.Base, counts, 7);
    UnderAt(Archive.Base, counts, 8);
    UnderAt(Archive.Base, counts, 9);
  }
}
