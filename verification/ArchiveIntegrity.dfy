/**
 The checks that hold an archive to its manifests, its checksum lists and the files there are.
 */
module ArchiveIntegrity {
  import opened Json
  import opened Seqs
  import opened Sorting
  import opened Archive
  import FileNames
  import opened Text
  import opened ArchiveOrder
  import opened ArchiveLimits
  import opened ArchiveRun

  ghost predicate DigestHolds(t: Tools, files: Files, r: Record) {
    r.path in files && r.bytes == t.size(files[r.path]) && r.sha256 == t.sha256(files[r.path])
  }

  function LinePaths(lines: seq<(string, Path)>): seq<Path> {
    seq(|lines|, i requires 0 <= i < |lines| => lines[i].1)
  }

  // The checksum list names each expected path once, with its digest.
  ghost predicate ChecksumsHold(t: Tools, files: Files, s: Suite, expected: set<Path>) {
    && Checksums(s) in files && files[Checksums(s)].SumsFile?
    && var lines := files[Checksums(s)].lines;
    && Distinct(LinePaths(lines))
    && Elements(LinePaths(lines)) == expected + {Manifest(s)}
    && forall i :: 0 <= i < |lines| ==> lines[i].1 in files && t.sha256(files[lines[i].1]) == lines[i].0
  }

  ghost predicate RecordsHold(t: Tools, files: Files, s: Suite) {
    && Manifest(s) in files && files[Manifest(s)].ManifestFile?
    && forall r :: r in files[Manifest(s)].records ==> DigestHolds(t, files, r)
  }

  function Controls(s: Suite): set<Path> {
    {Manifest(s), Checksums(s)}
  }

  function Owned(files: Files, s: Suite): set<Path> {
    if PathsOf(files, s).Some? then Elements(PathsOf(files, s).value) else {}
  }

  // No path of an extension is taken twice, by itself, the base or an earlier extension.
  ghost predicate Separate(files: Files, s: Suite, taken: set<Path>) {
    && PathsOf(files, s).Some? && Distinct(PathsOf(files, s).value)
    && Controls(s) !! Owned(files, Base) && Controls(s) !! taken
    && forall p :: p in Owned(files, s) ==> p !in Owned(files, Base) && p !in taken && p !in Controls(s)
  }

  ghost predicate SuiteHolds(t: Tools, files: Files, s: Suite, taken: set<Path>) {
    && Separate(files, s, taken)
    && RecordsHold(t, files, s)
    && ChecksumsHold(t, files, s, Owned(files, s))
  }

  function Bundle(files: Files, s: Suite): set<Path> {
    Controls(s) + Owned(files, s)
  }

  ghost predicate ExtensionsHold(t: Tools, files: Files) {
    SuiteHolds(t, files, Web, {}) && SuiteHolds(t, files, Llm, Bundle(files, Web))
  }

  ghost predicate ExtensionsSeparate(files: Files) {
    Separate(files, Web, {}) && Separate(files, Llm, Bundle(files, Web))
  }

  // ----- What the check finds on disk -----

  // Files with a hidden part are not walked.
  predicate Visible(p: Path) {
    p.Other? ==> !FileNames.Hidden(p.name)
  }

  function Walked(files: Files): set<Path> {
    set p | p in files && Visible(p)
  }

  // The files outside the extensions, without the base controls.
  function Actual(files: Files): set<Path> {
    Walked(files) - Controls(Base) - Bundle(files, Web) - Bundle(files, Llm)
  }

  // What the check takes for a document: here the extension has to be lower case.
  predicate IsDocument(p: Path) {
    p.Complete? || (p.Other? && FileNames.PlainMarkdown(p.name))
  }

  // Here the name may hold a slash.
  predicate StartsNumbered(p: Path) {
    p.Other? && FileNames.StartsNumbered(p.name)
  }

  // Every document has proper front matter, and no id occurs twice.
  ghost predicate FrontmatterHolds(t: Tools, files: Files) {
    && (forall p :: p in Walked(files) && IsDocument(p) ==>
          t.frontmatter(files[p]).Some? && t.proper(t.frontmatter(files[p]).value))
    && forall p, q :: p in Walked(files) && q in Walked(files) && IsDocument(p) && IsDocument(q) && p != q ==>
         !SharesId(t, files, p, q)
  }

  function Having(paths: set<Path>, counted: Path -> bool): set<Path> {
    set p | p in paths && counted(p)
  }

  // An entry of the document manifest is the document of its id, with its path and digest.
  ghost predicate EntryHolds(t: Tools, files: Files, d: Document) {
    && d.record.path in Walked(files) && IsDocument(d.record.path)
    && t.frontmatter(files[d.record.path]) == Some(d.front) && DigestHolds(t, files, d.record)
  }

  // The documents outside the extensions, and outside what further suites claim.
  function BaseDocuments(files: Files, claimed: set<Path>): set<Path> {
    Having(Walked(files) - Bundle(files, Web) - Bundle(files, Llm) - claimed, IsDocument)
  }

  ghost predicate DocumentsHold(t: Tools, files: Files) {
    && SpecManifest in files && files[SpecManifest].SpecFile? && t.claimed(Inputs(files)).Some?
    && var documents := files[SpecManifest].documents;
    && |documents| == |BaseDocuments(files, t.claimed(Inputs(files)).value)|
    && (forall i, j :: 0 <= i < j < |documents| ==> documents[i].front.specId != documents[j].front.specId)
    && forall d :: d in documents ==> EntryHolds(t, files, d)
  }

  // The counts, taken over the files on disk.
  function CheckedCounts(actual: set<Path>, x: Totals): seq<nat> {
    [|actual|, |Having(actual, IsMarkdown)|, |Having(actual, StartsNumbered)|, |Having(actual, IsAdr)|] + TotalCounts(x)
  }

  ghost predicate CountsHold(t: Tools, files: Files) {
    && Manifest(Base) in files && files[Manifest(Base)].ManifestFile? && t.totals(Inputs(files)).Some?
    && files[Manifest(Base)].counts == CheckedCounts(Actual(files), t.totals(Inputs(files)).value)
  }

  // The whole check.
  ghost predicate Intact(t: Tools, files: Files) {
    && FrontmatterHolds(t, files)
    && PathsOf(files, Base).Some? && Distinct(PathsOf(files, Base).value) && RecordsHold(t, files, Base)
    && ExtensionsHold(t, files)
    && Owned(files, Base) == Actual(files)
    && CountsHold(t, files)
    && DocumentsHold(t, files)
    && ChecksumsHold(t, files, Base, Actual(files))
  }

  // ----- After a refresh they hold -----

  lemma SettledRecords(t: Tools, files: Files, order: seq<Path>, s: Suite)
    requires Right(RecipeOf(t, order), files, Manifest(s))
    ensures RecordsHold(t, files, s)
  {
    var records := files[Manifest(s)].records;
    forall r | r in records ensures DigestHolds(t, files, r) {
      var i :| 0 <= i < |records| && records[i] == r;
      assert PathsOf(files, s).value[i] in PathsOf(files, s).value;
    }
  }

  lemma SettledChecksums(t: Tools, files: Files, order: seq<Path>, s: Suite)
    requires Right(RecipeOf(t, order), files, Checksums(s)) && Distinct(PathsOf(files, s).value)
    requires Manifest(s) !in PathsOf(files, s).value
    ensures ChecksumsHold(t, files, s, Owned(files, s))
  {
    var paths := PathsOf(files, s).value;
    var all := paths + [Manifest(s)];
    var sorted := Sort(all, t.pathLe);
    DistinctSnoc(paths, Manifest(s));
    SortMultiset(all, t.pathLe);
    SameElements(sorted, all);
    assert Elements(all) == Elements(paths) + {Manifest(s)};
    assert LinePaths(files[Checksums(s)].lines) == sorted;
    var lines := files[Checksums(s)].lines;
    forall i | 0 <= i < |lines| ensures lines[i].1 in files && t.sha256(files[lines[i].1]) == lines[i].0 {
      assert sorted[i] in sorted;
    }
  }

  // Once refreshed, the extension checks can only fail over a path that is taken twice.
  lemma RefreshedExtensions(t: Tools, files: Files, order: seq<Path>)
    requires Settled(t, files, order)
    ensures ExtensionsHold(t, files) <==> ExtensionsSeparate(files)
  {
    if ExtensionsSeparate(files) {
      var g := RecipeOf(t, order);
      forall s | s != Base ensures RecordsHold(t, files, s) && ChecksumsHold(t, files, s, Owned(files, s)) {
        assert Right(g, files, Manifest(s)) && Right(g, files, Checksums(s));
        SettledRecords(t, files, order, s);
        assert Manifest(s) !in Owned(files, s);
        SettledChecksums(t, files, order, s);
      }
    }
  }

  // The base owns exactly the visible files outside the extensions.
  ghost predicate OnDisk(files: Files) {
    Owned(files, Base) == Actual(files)
  }

  // ----- The counts -----

  lemma {:induction false} CountIsSize(paths: seq<Path>, counted: Path -> bool)
    requires Distinct(paths)
    ensures CountOf(paths, counted) == |Having(Elements(paths), counted)|
  {
    if paths == [] {
      assert Having(Elements(paths), counted) == {};
    } else {
      var front, last := paths[..|paths| - 1], paths[|paths| - 1];
      CountIsSize(front, counted);
      assert paths == front + [last];
      assert last !in front;
      var before := Having(Elements(front), counted);
      assert Having(Elements(paths), counted) == if counted(last) then before + {last} else before;
    }
  }

  lemma {:induction false} SubsetSize<T>(a: set<T>, b: set<T>)
    requires a <= b
    ensures |a| <= |b| && (|a| == |b| <==> a == b)
  {
    if a != {} {
      var x :| x in a;
      SubsetSize(a - {x}, b - {x});
    }
  }

  // No document in a directory whose name starts like that of a numbered specification.
  ghost predicate NumberedFlat(paths: set<Path>) {
    forall p :: p in paths && StartsNumbered(p) ==> '/' !in p.name
  }

  // The refresh and the check count numbered specifications alike exactly when no numbered
  // directory holds a document; otherwise the check counts more.
  lemma NumberedAgreeExactly(paths: seq<Path>)
    requires Distinct(paths)
    ensures CountOf(paths, IsNumbered) <= |Having(Elements(paths), StartsNumbered)|
    ensures CountOf(paths, IsNumbered) == |Having(Elements(paths), StartsNumbered)| <==> NumberedFlat(Elements(paths))
  {
    var all := Elements(paths);
    CountIsSize(paths, IsNumbered);
    SubsetSize(Having(all, IsNumbered), Having(all, StartsNumbered));
    if NumberedFlat(all) { assert Having(all, IsNumbered) == Having(all, StartsNumbered); }
    if Having(all, IsNumbered) == Having(all, StartsNumbered) {
      forall p | p in all && StartsNumbered(p) ensures '/' !in p.name { assert p in Having(all, IsNumbered); }
    }
  }

  lemma RefreshedCounts(t: Tools, files: Files, order: seq<Path>)
    requires Right(RecipeOf(t, order), files, Manifest(Base)) && Distinct(PathsOf(files, Base).value) && OnDisk(files)
    ensures CountsHold(t, files) <==> NumberedFlat(Owned(files, Base))
  {
    var paths := PathsOf(files, Base).value;
    CountIsSize(paths, IsMarkdown);
    CountIsSize(paths, IsAdr);
    NumberedAgreeExactly(paths);
    ElementsBound(paths);
    var x := t.totals(Inputs(files)).value;
    SameTail(OwnCounts(paths), CheckedCounts(Owned(files, Base), x)[..4], TotalCounts(x));
  }

  lemma SameTail(a: seq<nat>, b: seq<nat>, tail: seq<nat>)
    requires |a| == |b|
    ensures a + tail == b + tail <==> a == b
  {
    if a + tail == b + tail { assert a == (a + tail)[..|a|] && b == (b + tail)[..|b|]; }
  }

  // ----- The documents -----

  lemma SettledEntries(t: Tools, files: Files, order: seq<Path>, d: Document)
    requires Right(RecipeOf(t, order), files, SpecManifest) && d in files[SpecManifest].documents
    ensures d.record.path in order && IsMarkdown(d.record.path) && d.record.path in files
    ensures t.frontmatter(files[d.record.path]) == Some(d.front) && DigestHolds(t, files, d.record)
  {
    var paths := Markdown(order);
    var documents := Documents(t, files, paths);
    SortMembers(documents, BySpecId);
    DocumentMembers(t, files, paths, d);
    MarkdownMembers(order);
  }

  lemma SettledCount(t: Tools, files: Files, order: seq<Path>)
    requires Right(RecipeOf(t, order), files, SpecManifest) && Distinct(order)
    ensures |files[SpecManifest].documents| == |Having(Elements(order), IsMarkdown)|
  {
    var paths := Markdown(order);
    SortMultiset(Documents(t, files, paths), BySpecId);
    MarkdownDistinct(order);
    MarkdownMembers(order);
    ElementsBound(paths);
    assert Elements(paths) == Having(Elements(order), IsMarkdown);
  }

  lemma SettledIds(t: Tools, files: Files, order: seq<Path>)
    requires Right(RecipeOf(t, order), files, SpecManifest) && Distinct(order) && DistinctIds(t, files, Elements(order))
    ensures var documents := files[SpecManifest].documents;
            forall i, j :: 0 <= i < j < |documents| ==> documents[i].front.specId != documents[j].front.specId
  {
    var documents := files[SpecManifest].documents;
    ListStrict(t, files, order);
    forall i, j | 0 <= i < j < |documents| ensures documents[i].front.specId != documents[j].front.specId {
      assert documents[i] in documents && documents[j] in documents;
    }
  }

  // The Markdown files of the base are documents for the check, and no further suite claims one.
  ghost predicate Accepted(t: Tools, files: Files) {
    && t.claimed(Inputs(files)).Some?
    && forall p :: p in Owned(files, Base) && IsMarkdown(p) ==> IsDocument(p) && p !in t.claimed(Inputs(files)).value
  }

  lemma BaseMarkdown(files: Files, claimed: set<Path>)
    requires OnDisk(files)
    ensures BaseDocuments(files, claimed) == Having(Owned(files, Base) - claimed, IsDocument)
    ensures BaseDocuments(files, claimed) <= Having(Owned(files, Base), IsMarkdown)
  {
    forall p | IsDocument(p) ensures IsMarkdown(p) && p !in Controls(Base) {
      if p.Other? { FileNames.PlainIsMarkdown(p.name); }
    }
  }

  lemma RefreshedIds(t: Tools, files: Files)
    requires OnDisk(files) && Accepted(t, files) && FrontmatterHolds(t, files)
    ensures DistinctIds(t, files, Owned(files, Base))
  {
    var paths := Owned(files, Base);
    forall p, q | p in paths && q in paths && IsMarkdown(p) && IsMarkdown(q) && p != q ensures !SharesId(t, files, p, q) {
      assert p in Walked(files) && q in Walked(files);
    }
  }

  lemma AcceptedExactly(t: Tools, files: Files, order: seq<Path>)
    requires Right(RecipeOf(t, order), files, SpecManifest) && Distinct(order) && Elements(order) == Owned(files, Base)
    requires OnDisk(files) && t.claimed(Inputs(files)).Some?
    ensures |files[SpecManifest].documents| == |BaseDocuments(files, t.claimed(Inputs(files)).value)| <==> Accepted(t, files)
  {
    var claimed, owned := t.claimed(Inputs(files)).value, Owned(files, Base);
    SettledCount(t, files, order);
    BaseMarkdown(files, claimed);
    SubsetSize(BaseDocuments(files, claimed), Having(owned, IsMarkdown));
    if Accepted(t, files) { assert BaseDocuments(files, claimed) == Having(owned, IsMarkdown); }
    if BaseDocuments(files, claimed) == Having(owned, IsMarkdown) {
      forall p | p in owned && IsMarkdown(p) ensures IsDocument(p) && p !in claimed { assert p in Having(owned, IsMarkdown); }
    }
  }

  lemma RefreshedDocuments(t: Tools, files: Files, order: seq<Path>)
    requires Right(RecipeOf(t, order), files, SpecManifest) && Distinct(order) && Elements(order) == Owned(files, Base)
    requires OnDisk(files) && FrontmatterHolds(t, files)
    ensures DocumentsHold(t, files) <==> Accepted(t, files)
  {
    if t.claimed(Inputs(files)).Some? {
      AcceptedExactly(t, files, order);
      if Accepted(t, files) {
        RefreshedIds(t, files);
        SettledIds(t, files, order);
        forall d | d in files[SpecManifest].documents ensures EntryHolds(t, files, d) {
          SettledEntries(t, files, order, d);
          assert d.record.path in Owned(files, Base);
        }
      }
    }
  }

  // What a refresh cannot mend.
  ghost predicate Sound(t: Tools, files: Files) {
    FrontmatterHolds(t, files) && OnDisk(files) && Accepted(t, files) && NumberedFlat(Owned(files, Base))
  }

  // After a refresh the whole check fails only for that: front matter, paths taken twice, base
  // files that are not there, are hidden or that no inventory has, Markdown files that the
  // check does not count, and documents in numbered directories.
  lemma IntactExactly(t: Tools, files: Files, order: seq<Path>)
    requires Settled(t, files, order) && Ordered(files) && Listed(files)
    requires Distinct(order) && Elements(order) == Owned(files, Base)
    ensures Intact(t, files) <==> ExtensionsSeparate(files) && Sound(t, files)
  {
    var g := RecipeOf(t, order);
    assert Right(g, files, Manifest(Base)) && Right(g, files, Checksums(Base)) && Right(g, files, SpecManifest);
    RefreshedExtensions(t, files, order);
    SettledRecords(t, files, order, Base);
    assert Manifest(Base) !in PathsOf(files, Base).value by { assert !Inventoried(Base, Manifest(Base)); }
    SettledChecksums(t, files, order, Base);
    if FrontmatterHolds(t, files) && OnDisk(files) {
      RefreshedCounts(t, files, order);
      RefreshedDocuments(t, files, order);
    }
  }

  // ----- Disjoint inventories of ordinary files -----

  ghost predicate Ordinary(files: Files) {
    forall s, r :: Controls(s) !! Owned(files, r)
  }

  ghost predicate Disjoint(files: Files) {
    && Listed(files)
    && Owned(files, Base) !! Owned(files, Web) && Owned(files, Base) !! Owned(files, Llm)
    && Owned(files, Web) !! Owned(files, Llm)
  }

  lemma DisjointSeparate(files: Files)
    requires Ordinary(files) && Disjoint(files)
    ensures ExtensionsSeparate(files)
  {
    assert forall s, r :: Controls(s) !! Owned(files, r);
  }

  // ----- What a refresh will be held to, seen before it -----

  // What a file that is not generated holds, or a combined document will hold.
  function Ahead(t: Tools, files: Files, p: Path): Option<Content> {
    if p.Complete? then t.complete(p.suite, Owned(files, p.suite), Inputs(files))
    else if p in files then Some(files[p])
    else None
  }

  ghost predicate ProperAhead(t: Tools, files: Files, p: Path) {
    IsDocument(p) && Visible(p) && Ahead(t, files, p).Some? ==>
      t.frontmatter(Ahead(t, files, p).value).Some? && t.proper(t.frontmatter(Ahead(t, files, p).value).value)
  }

  ghost predicate ApartAhead(t: Tools, files: Files, p: Path, q: Path) {
    IsDocument(p) && Visible(p) && IsDocument(q) && Visible(q) && p != q &&
    Ahead(t, files, p).Some? && Ahead(t, files, q).Some? ==>
      var a, b := t.frontmatter(Ahead(t, files, p).value), t.frontmatter(Ahead(t, files, q).value);
      !(a.Some? && b.Some? && a.value.specId == b.value.specId)
  }

  ghost predicate FrontmatterAhead(t: Tools, files: Files) {
    (forall p :: ProperAhead(t, files, p)) && forall p, q :: ApartAhead(t, files, p, q)
  }

  // The base owns exactly the visible files there are or will be, outside the extensions.
  ghost predicate OnDiskAhead(files: Files) {
    forall p :: p in Owned(files, Base) <==>
      && (p in files || 0 <= Rank(p)) && Visible(p)
      && p !in Controls(Base) && p !in Bundle(files, Web) && p !in Bundle(files, Llm)
  }

  // What the check will ask for and a refresh cannot bring about.
  ghost predicate Ready(t: Tools, files: Files) {
    FrontmatterAhead(t, files) && OnDiskAhead(files) && Accepted(t, files) && NumberedFlat(Owned(files, Base))
  }

  // Before and after a refresh.
  ghost predicate Refreshed(t: Tools, files: Files, after: Files) {
    && SameShape(files, after) && (forall s :: PathsOf(after, s) == PathsOf(files, s))
    && (forall p :: 0 <= Rank(p) ==> p in after)
    && forall s :: Complete(s) in after && Ahead(t, files, Complete(s)) == Some(after[Complete(s)])
  }

  lemma RunRefreshes(t: Tools, files: Files, order: seq<Path>)
    requires Ordered(files) && Run(t, files, order).Some?
    ensures Refreshed(t, files, Run(t, files, order).value)
  {
    var g, after := RecipeOf(t, order), Run(t, files, order).value;
    RunSettles(t, files, order);
    forall s ensures PathsOf(after, s) == PathsOf(files, s) { SamePaths(files, after, s); }
    forall p | 0 <= Rank(p) ensures p in after && (p.Complete? ==> Ahead(t, files, p) == Some(after[p])) {
      assert Right(g, after, p);
    }
  }

  lemma InputsSame(files: Files, after: Files, p: Path)
    requires Inputs(files) == Inputs(after) && p.Other?
    ensures SameAt(files, after, p)
  {
    assert p in files <==> p in Inputs(files);
    assert p in after <==> p in Inputs(after);
    if p in files { assert files[p] == Inputs(files)[p] && after[p] == Inputs(after)[p]; }
  }

  // What is seen ahead of a document is what will be there.
  lemma DocumentAhead(t: Tools, files: Files, after: Files, p: Path)
    requires Refreshed(t, files, after) && IsDocument(p) && Visible(p)
    ensures p in Walked(after) <==> Ahead(t, files, p).Some?
    ensures p in Walked(after) ==> Ahead(t, files, p) == Some(after[p])
  {
    if p.Other? { InputsSame(files, after, p); }
  }

  lemma FrontmatterForeseen(t: Tools, files: Files, after: Files)
    requires Refreshed(t, files, after)
    ensures FrontmatterHolds(t, after) <==> FrontmatterAhead(t, files)
  {
    forall p | IsDocument(p) && Visible(p)
      ensures p in Walked(after) <==> Ahead(t, files, p).Some?
      ensures p in Walked(after) ==> Ahead(t, files, p) == Some(after[p])
    {
      DocumentAhead(t, files, after, p);
    }
    if FrontmatterAhead(t, files) {
      forall p | p in Walked(after) && IsDocument(p)
        ensures t.frontmatter(after[p]).Some? && t.proper(t.frontmatter(after[p]).value)
      {
        assert ProperAhead(t, files, p);
      }
      forall p, q | p in Walked(after) && q in Walked(after) && IsDocument(p) && IsDocument(q) && p != q
        ensures !SharesId(t, after, p, q)
      {
        assert ApartAhead(t, files, p, q);
      }
    }
    if FrontmatterHolds(t, after) {
      forall p, q ensures ApartAhead(t, files, p, q) {
        if p in Walked(after) && q in Walked(after) && IsDocument(p) && IsDocument(q) && p != q {
          assert !SharesId(t, after, p, q);
        }
      }
    }
  }

  lemma DiskForeseen(t: Tools, files: Files, after: Files)
    requires Refreshed(t, files, after)
    ensures OnDisk(after) <==> OnDiskAhead(files)
  {
    forall p ensures p in after <==> p in files || 0 <= Rank(p) {
      if p.Other? { InputsSame(files, after, p); }
    }
    forall p ensures p in Actual(after) <==>
        && (p in files || 0 <= Rank(p)) && Visible(p)
        && p !in Controls(Base) && p !in Bundle(files, Web) && p !in Bundle(files, Llm)
    {}
    if OnDiskAhead(files) {
      forall p ensures p in Owned(after, Base) <==> p in Actual(after) { assert p in Owned(files, Base) <==> p in Actual(after); }
    }
  }

  // A refresh followed by the check, for disjoint inventories without control files: the check
  // passes exactly when the archive was ready for it.
  lemma RefreshVerifies(t: Tools, files: Files, order: seq<Path>)
    requires Ordinary(files) && Disjoint(files) && Ordered(files) && Enumerates(order, PathsOf(files, Base).value)
    requires Run(t, files, order).Some?
    ensures Intact(t, Run(t, files, order).value) <==> Ready(t, files)
  {
    var after := Run(t, files, order).value;
    RunSettles(t, files, order);
    RunRefreshes(t, files, order);
    OrderedKept(files, after);
    forall s, r ensures Controls(s) !! Owned(after, r) { assert Controls(s) !! Owned(files, r); }
    DisjointSeparate(after);
    IntactExactly(t, after, order);
    FrontmatterForeseen(t, files, after);
    DiskForeseen(t, files, after);
  }

  // ----- An archive with a numbered directory -----

  // Combined documents and texts whose front matter has them as ids.
  function TextIds(): Tools {
    Tools(
      (c: Content) => "",
      (c: Content) => 0,
      (p: Path, q: Path) => true,
      (c: Content) => Some(Frontmatter(if c.Text? then c.text else "", "", "", "", "")),
      (f: Frontmatter) => true,
      (s: Suite, owned: set<Path>, files: Files) => Some(Text(match s case Base => "B" case Web => "W" case Llm => "L")),
      (files: Files) => Some(Totals(0, 0, 0, 0, 0, 0)),
      (files: Files) => Some({}))
  }

  function WithDocument(p: Path): Inventories {
    Inventories([Complete(Base), Complete(Web), Complete(Llm), SpecManifest, p], [], [])
  }

  // The generated files and one more, which the base lists with the combined documents and
  // the document manifest; the extensions list nothing.
  ghost predicate OneDocument(files: Files, p: Path) {
    && p.Other? && (forall q :: q in files <==> 0 <= Rank(q) || q == p) && files[p].Text? && files[p].text == ""
    && PathsOf(files, Base) == Some(WithDocument(p).base)
    && PathsOf(files, Web) == Some([]) && PathsOf(files, Llm) == Some([])
  }

  lemma OneDocumentOwned(files: Files, p: Path)
    requires OneDocument(files, p)
    ensures forall q :: q in Owned(files, Base) <==> q.Complete? || q.SpecManifest? || q == p
    ensures Owned(files, Web) == {} && Owned(files, Llm) == {}
  {
    var base := WithDocument(p).base;
    forall q ensures q in base <==> q.Complete? || q.SpecManifest? || q == p {
      assert base[0] == Complete(Base) && base[1] == Complete(Web) && base[2] == Complete(Llm);
      assert base[3] == SpecManifest && base[4] == p;
      if q.Complete? { match q.suite { case Base => case Web => case Llm => } }
    }
  }

  lemma OneDocumentOrdinary(files: Files, p: Path)
    requires OneDocument(files, p)
    ensures Ordinary(files) && Disjoint(files) && Ordered(files)
  {
    OneDocumentOwned(files, p);
    forall s, r ensures Controls(s) !! Owned(files, r) {}
    forall s, q | PathsOf(files, s).Some? && q in PathsOf(files, s).value ensures Inventoried(s, q) {
      assert q in Owned(files, s);
    }
  }

  lemma OneDocumentFront(files: Files, p: Path)
    requires OneDocument(files, p)
    ensures FrontmatterAhead(TextIds(), files)
  {
    var t := TextIds();
    forall q, r ensures ApartAhead(t, files, q, r) {
      assert forall x: Path :: x.Other? && x in files ==> x == p;
    }
  }

  lemma OneDocumentDisk(files: Files, p: Path)
    requires OneDocument(files, p) && Visible(p) && IsDocument(p)
    ensures OnDiskAhead(files) && Accepted(TextIds(), files)
  {
    OneDocumentOwned(files, p);
    forall q ensures q in Controls(Base) || q in Controls(Web) || q in Controls(Llm) <==> q.Manifest? || q.Checksums? {
      match q
      case Manifest(s) => match s { case Base => case Web => case Llm => }
      case Checksums(s) => match s { case Base => case Web => case Llm => }
      case _ =>
    }
  }

  lemma OneDocumentThere(p: Path)
    requires p.Other?
    ensures OneDocument(StaleFiles(WithDocument(p)), p) && Readable(WithDocument(p), StaleFiles(WithDocument(p)))
  {
    var inv := WithDocument(p);
    var files := StaleFiles(inv);
    StaleLists(inv);
    AllGenerated(SpecManifest);
    forall q ensures q in files <==> 0 <= Rank(q) || q == p {
      if 0 <= Rank(q) { AllGenerated(q); }
      if q == p { assert p == inv.base[4]; }
    }
    assert forall s :: PathsOf(files, s) == Some(inv.Of(s));
    assert inv.Of(Web) == [] && inv.Of(Llm) == [];
  }

  // A base document in a numbered directory: all else is in order, the refresh goes through,
  // and the check still fails.
  lemma NumberedDirectory(p: Path)
    requires p.Other? && Visible(p) && IsDocument(p) && StartsNumbered(p) && '/' in p.name
    ensures var t, files, order := TextIds(), StaleFiles(WithDocument(p)), WithDocument(p).base;
            && Ordinary(files) && Disjoint(files) && Ordered(files) && Enumerates(order, PathsOf(files, Base).value)
            && FrontmatterAhead(t, files) && OnDiskAhead(files) && Accepted(t, files)
            && Run(t, files, order).Some? && !Intact(t, Run(t, files, order).value)
  {
    var inv := WithDocument(p);
    var files := StaleFiles(inv);
    OneDocumentThere(p);
    RunPossible(TextIds(), inv, files, inv.base, WRITES);
    OneDocumentFails(files, p);
  }

  lemma OneDocumentFails(files: Files, p: Path)
    requires OneDocument(files, p) && Visible(p) && IsDocument(p) && StartsNumbered(p) && '/' in p.name
    requires Run(TextIds(), files, WithDocument(p).base).Some?
    ensures Ordinary(files) && Disjoint(files) && Ordered(files)
    ensures Enumerates(WithDocument(p).base, PathsOf(files, Base).value)
    ensures FrontmatterAhead(TextIds(), files) && OnDiskAhead(files) && Accepted(TextIds(), files)
    ensures !Intact(TextIds(), Run(TextIds(), files, WithDocument(p).base).value)
  {
    OneDocumentOrdinary(files, p);
    OneDocumentFront(files, p);
    OneDocumentDisk(files, p);
    OneDocumentOwned(files, p);
    RefreshVerifies(TextIds(), files, WithDocument(p).base);
  }

  // Such names, `01-notes/a.md` among them.
  lemma DirectoryNames(dir: string, stem: string)
    requires |dir| >= 3 && Digit(dir[0]) && Digit(dir[1]) && dir[2] == '-' && '.' !in dir
    requires stem != "" && '/' !in stem && stem[0] != '.'
    ensures var p := Other(dir + ['/'] + (stem + ['.'] + ['m', 'd']));
            Visible(p) && IsDocument(p) && StartsNumbered(p) && '/' in p.name
  {
    var last := stem + ['.'] + ['m', 'd'];
    var name := dir + ['/'] + last;
    FileNames.ExtensionOf(dir, stem, ['m', 'd']);
    assert name[|dir|] == '/' && name[0] == dir[0];
    forall i | 0 <= i < |name| - 1 && name[i] == '/' ensures name[i + 1] != '.' {
      if i < |dir| - 1 { assert name[i + 1] == dir[i + 1]; }
    }
  }
}
