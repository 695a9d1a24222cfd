/**
 Which inventories a refresh can serve: those whose manifests list only what is written
 before them, and no others.
 */
module ArchiveLimits {
  import opened Json
  import opened Seqs
  import opened Sorting
  import opened Archive

  // The paths that the three manifests list.
  datatype Inventories = Inventories(base: seq<Path>, web: seq<Path>, llm: seq<Path>) {
    function Of(s: Suite): seq<Path> {
      match s
      case Base => base
      case Web => web
      case Llm => llm
    }
  }

  ghost predicate Lists(files: Files, inv: Inventories) {
    forall s :: PathsOf(files, s) == Some(inv.Of(s))
  }

  ghost predicate InOrder(inv: Inventories) {
    forall s, p :: p in inv.Of(s) ==> Inventoried(s, p)
  }

  // ----- An archive in which nothing generated is up to date

  const OLD := Frontmatter("old", "", "", "", "")
  const NEW := Frontmatter("new", "", "", "", "")

  predicate Stale(c: Content) {
    match c
    case ManifestFile(_, _, counts) => counts == []
    case SumsFile(lines) => lines == []
    case SpecFile(_, documents) => documents != [] && documents[0].front == OLD
    case Text(_) => false
  }

  // A digest that tells stale files from fresh ones.
  function Probe(): Tools {
    Tools(
      (c: Content) => if Stale(c) then "old" else "new",
      (c: Content) => 0,
      (p: Path, q: Path) => true,
      (c: Content) => Some(NEW),
      (f: Frontmatter) => true,
      (s: Suite, owned: set<Path>, files: Files) => Some(Text("")),
      (files: Files) => Some(Totals(0, 0, 0, 0, 0, 0)),
      (files: Files) => Some({}))
  }

  function Unread(paths: seq<Path>): (r: seq<Record>)
    ensures RecordPaths(r) == paths
  {
    seq(|paths|, i requires 0 <= i < |paths| => Record(paths[i], 0, ""))
  }

  function StaleContent(inv: Inventories, p: Path): Content {
    match p
    case Manifest(s) => ManifestFile("", Unread(inv.Of(s)), [])
    case Checksums(s) => SumsFile([])
    case SpecManifest => SpecFile("", [Document(OLD, Record(SpecManifest, 0, ""))])
    case Complete(_) => Text("")
    case Other(_) => Text("")
  }

  function Generated(): set<Path> {
    set k | 0 <= k < WRITES :: PathAt(k)
  }

  function Everything(inv: Inventories): set<Path> {
    Generated() + Elements(inv.base) + Elements(inv.web) + Elements(inv.llm)
  }

  function StaleFiles(inv: Inventories): Files {
    map p | p in Everything(inv) :: StaleContent(inv, p)
  }

  lemma AllGenerated(p: Path)
    requires 0 <= Rank(p)
    ensures p in Generated()
  {
    var k := Rank(p);
    assert k < WRITES;
    RankUnique(p, PathAt(k));
  }

  lemma StaleLists(inv: Inventories)
    ensures Lists(StaleFiles(inv), inv)
    ensures forall s :: Present(StaleFiles(inv), inv.Of(s))
  {
    forall s ensures PathsOf(StaleFiles(inv), s) == Some(inv.Of(s)) { AllGenerated(Manifest(s)); }
    forall s, p | p in inv.Of(s) ensures p in StaleFiles(inv) { assert p in Elements(inv.Of(s)); }
  }

  // ----- The run over it

  // After `k` writes: nothing is lost, what was written is fresh, the rest is as it was.
  ghost predicate Freshened(inv: Inventories, files: Files, k: nat) {
    && Lists(files, inv) && Everything(inv) <= files.Keys
    && SpecManifest in files && files[SpecManifest].SpecFile?
    && (forall p :: 0 <= Rank(p) < k ==> p in files && !Stale(files[p]))
    && (forall p :: k <= Rank(p) ==> p in files && files[p] == StaleContent(inv, p))
  }

  lemma FreshStart(inv: Inventories)
    ensures Freshened(inv, StaleFiles(inv), 0)
  {
    StaleLists(inv);
    forall p | 0 <= Rank(p) ensures p in StaleFiles(inv) { AllGenerated(p); }
  }

  lemma AllPresent(inv: Inventories, files: Files, s: Suite)
    requires Everything(inv) <= files.Keys
    ensures Present(files, inv.Of(s))
  {
    forall p | p in inv.Of(s) ensures p in files { assert p in Elements(inv.Of(s)); }
  }

  // ----- With tools that never fail a refresh goes through

  ghost predicate Total(t: Tools) {
    && (forall c :: t.frontmatter(c).Some?)
    && (forall s, owned, files :: t.complete(s, owned, files).Some?)
    && forall files :: t.totals(files).Some?
  }

  // The manifests can be read, and the files that they list are there.
  ghost predicate Readable(inv: Inventories, files: Files) {
    && Lists(files, inv) && Everything(inv) <= files.Keys
    && SpecManifest in files && files[SpecManifest].SpecFile?
  }

  lemma ContentPossible(t: Tools, inv: Inventories, files: Files, order: seq<Path>, p: Path)
    requires Total(t) && Readable(inv, files) && 0 <= Rank(p) && Elements(order) <= files.Keys
    ensures ContentOf(t, p, files, order).Some?
    ensures p.SpecManifest? ==> ContentOf(t, p, files, order).value.SpecFile?
  {
    match p
    case Complete(s) => assert PathsOf(files, s) == Some(inv.Of(s));
    case Manifest(s) =>
      assert PathsOf(files, s) == Some(inv.Of(s));
      AllPresent(inv, files, s);
    case Checksums(s) =>
      assert PathsOf(files, s) == Some(inv.Of(s));
      AllPresent(inv, files, s);
      AllGenerated(Manifest(s));
      SortMembers(inv.Of(s) + [Manifest(s)], t.pathLe);
    case SpecManifest =>
      assert PathsOf(files, Base) == Some(inv.Of(Base));
      MarkdownMembers(order);
      forall q | q in Markdown(order) ensures q in files { assert q in Elements(order); }
  }

  lemma StaysReadable(t: Tools, inv: Inventories, files: Files, order: seq<Path>, p: Path)
    requires Total(t) && Readable(inv, files) && 0 <= Rank(p) && Elements(order) <= files.Keys
    ensures ContentOf(t, p, files, order).Some?
    ensures Readable(inv, files[p := ContentOf(t, p, files, order).value])
  {
    ContentPossible(t, inv, files, order, p);
    var c := ContentOf(t, p, files, order).value;
    WriteKeepsShape(t, p, files, order, c);
    forall s ensures PathsOf(files[p := c], s) == Some(inv.Of(s)) {
      SamePaths(files, files[p := c], s);
      assert PathsOf(files, s) == Some(inv.Of(s));
    }
  }

  lemma {:induction false} RunPossible(t: Tools, inv: Inventories, files: Files, order: seq<Path>, k: nat)
    requires k <= WRITES && Total(t) && Readable(inv, files) && Elements(order) <= Elements(inv.base)
    ensures RunTo(RecipeOf(t, order), files, k).Some? && Readable(inv, RunTo(RecipeOf(t, order), files, k).value)
  {
    if k > 0 {
      RunPossible(t, inv, files, order, k - 1);
      StaysReadable(t, inv, RunTo(RecipeOf(t, order), files, k - 1).value, order, PathAt(k - 1));
    }
  }

  // Every content there is to write is fresh.
  lemma FreshContent(inv: Inventories, files: Files, order: seq<Path>, p: Path)
    requires Lists(files, inv) && Everything(inv) <= files.Keys && 0 <= Rank(p)
    requires SpecManifest in files && files[SpecManifest].SpecFile? && Elements(order) <= files.Keys
    ensures ContentOf(Probe(), p, files, order).Some? && !Stale(ContentOf(Probe(), p, files, order).value)
    ensures p.SpecManifest? ==> ContentOf(Probe(), p, files, order).value.SpecFile?
  {
    var t := Probe();
    match p
    case Complete(s) => assert PathsOf(files, s) == Some(inv.Of(s));
    case Manifest(s) =>
      assert PathsOf(files, s) == Some(inv.Of(s));
      AllPresent(inv, files, s);
    case Checksums(s) =>
      assert PathsOf(files, s) == Some(inv.Of(s));
      AllPresent(inv, files, s);
      AllGenerated(Manifest(s));
      var paths := inv.Of(s) + [Manifest(s)];
      SortMembers(paths, t.pathLe);
      SortMultiset(paths, t.pathLe);
      assert Present(files, Sort(paths, t.pathLe));
    case SpecManifest =>
      assert PathsOf(files, Base) == Some(inv.Of(Base));
      FreshDocuments(files, order);
  }

  lemma FreshDocuments(files: Files, order: seq<Path>)
    requires Elements(order) <= files.Keys
    ensures Described(Probe(), files, Markdown(order))
    ensures var ds := Sort(Documents(Probe(), files, Markdown(order)), BySpecId);
            ds != [] ==> ds[0].front == NEW
  {
    var t := Probe();
    MarkdownMembers(order);
    forall p | p in Markdown(order) ensures p in files { assert p in Elements(order); }
    var ds := Documents(t, files, Markdown(order));
    SortMembers(ds, BySpecId);
    var sorted := Sort(ds, BySpecId);
    if sorted != [] {
      assert sorted[0] in sorted;
      var i :| 0 <= i < |ds| && ds[i] == sorted[0];
    }
  }

  lemma {:induction false} FreshRun(inv: Inventories, order: seq<Path>, k: nat)
    requires k <= WRITES && Elements(order) <= Elements(inv.base)
    ensures RunTo(RecipeOf(Probe(), order), StaleFiles(inv), k).Some?
    ensures Freshened(inv, RunTo(RecipeOf(Probe(), order), StaleFiles(inv), k).value, k)
  {
    if k == 0 {
      FreshStart(inv);
    } else {
      FreshRun(inv, order, k - 1);
      var before := RunTo(RecipeOf(Probe(), order), StaleFiles(inv), k - 1).value;
      FreshStep(inv, before, order, PathAt(k - 1));
    }
  }

  lemma FreshStep(inv: Inventories, files: Files, order: seq<Path>, p: Path)
    requires 0 <= Rank(p) && Freshened(inv, files, Rank(p)) && Elements(order) <= files.Keys
    ensures ContentOf(Probe(), p, files, order).Some?
    ensures Freshened(inv, files[p := ContentOf(Probe(), p, files, order).value], Rank(p) + 1)
  {
    FreshContent(inv, files, order, p);
    var c := ContentOf(Probe(), p, files, order).value;
    WriteKeepsShape(Probe(), p, files, order, c);
    var after := files[p := c];
    forall s ensures PathsOf(after, s) == Some(inv.Of(s)) {
      SamePaths(files, after, s);
      assert PathsOf(files, s) == Some(inv.Of(s));
    }
    forall q | 0 <= Rank(q) < Rank(p) + 1 ensures q in after && !Stale(after[q]) {
      if Rank(q) == Rank(p) { RankUnique(p, q); }
    }
  }

  // The record of an entry that is still stale when its manifest is written.
  ghost predicate RecordsOld(inv: Inventories, files: Files, s: Suite, i: nat) {
    && Manifest(s) in files && files[Manifest(s)].ManifestFile?
    && i < |files[Manifest(s)].records| && files[Manifest(s)].records[i].sha256 == "old"
  }

  lemma WrittenOld(inv: Inventories, order: seq<Path>, s: Suite, i: nat, before: Files)
    requires i < |inv.Of(s)| && !Inventoried(s, inv.Of(s)[i]) && Freshened(inv, before, Rank(Manifest(s)))
    ensures ContentOf(Probe(), Manifest(s), before, order).Some? ==>
            RecordsOld(inv, before[Manifest(s) := ContentOf(Probe(), Manifest(s), before, order).value], s, i)
  {
    var p := inv.Of(s)[i];
    assert PathsOf(before, s) == Some(inv.Of(s)) && before[p] == StaleContent(inv, p);
    OldRecord(inv, before, order, s, i);
  }

  lemma KeptOld(inv: Inventories, order: seq<Path>, s: Suite, i: nat)
    requires Elements(order) <= Elements(inv.base) && i < |inv.Of(s)| && !Inventoried(s, inv.Of(s)[i])
    ensures Run(Probe(), StaleFiles(inv), order).Some?
    ensures RecordsOld(inv, Run(Probe(), StaleFiles(inv), order).value, s, i)
  {
    var g, m := RecipeOf(Probe(), order), Rank(Manifest(s));
    FreshRun(inv, order, WRITES);
    FreshRun(inv, order, m);
    RunLater(g, StaleFiles(inv), m + 1, WRITES, Manifest(s));
    var before, q, c := LastWrite(g, StaleFiles(inv), m + 1);
    RankUnique(Manifest(s), q);
    WrittenOld(inv, order, s, i, before);
  }

  // A manifest that lists what is written with it or after it keeps the old digest of that.
  lemma OutOfRank(inv: Inventories, order: seq<Path>, s: Suite, p: Path)
    requires Elements(order) <= Elements(inv.base) && p in inv.Of(s) && !Inventoried(s, p)
    ensures Run(Probe(), StaleFiles(inv), order).Some?
    ensures !Right(RecipeOf(Probe(), order), Run(Probe(), StaleFiles(inv), order).value, Manifest(s))
  {
    FreshRun(inv, order, WRITES);
    var i :| 0 <= i < |inv.Of(s)| && inv.Of(s)[i] == p;
    KeptOld(inv, order, s, i);
    var final := Run(Probe(), StaleFiles(inv), order).value;
    assert PathsOf(final, s) == Some(inv.Of(s));
    NewRecord(inv, final, order, s, i);
  }

  lemma OldRecord(inv: Inventories, files: Files, order: seq<Path>, s: Suite, i: nat)
    requires PathsOf(files, s) == Some(inv.Of(s)) && i < |inv.Of(s)| && inv.Of(s)[i] in files
    requires Stale(files[inv.Of(s)[i]])
    ensures var c := ContentOf(Probe(), Manifest(s), files, order);
            c.Some? ==> c.value.ManifestFile? && |c.value.records| == |inv.Of(s)| && c.value.records[i].sha256 == "old"
  {
  }

  lemma NewRecord(inv: Inventories, files: Files, order: seq<Path>, s: Suite, i: nat)
    requires PathsOf(files, s) == Some(inv.Of(s)) && i < |inv.Of(s)| && inv.Of(s)[i] in files
    requires !Stale(files[inv.Of(s)[i]])
    ensures var c := ContentOf(Probe(), Manifest(s), files, order);
            c.Some? ==> c.value.ManifestFile? && |c.value.records| == |inv.Of(s)| && c.value.records[i].sha256 == "new"
  {
  }

  // Inventories can be refreshed, whatever the tools and the files are, exactly when they are
  // in the order of the writes.
  lemma SettlesExactly(inv: Inventories)
    requires forall s :: Distinct(inv.Of(s))
    ensures InOrder(inv) <==>
            forall t, files, order :: Lists(files, inv) && Enumerates(order, inv.base) && Run(t, files, order).Some? ==>
              Settled(t, Run(t, files, order).value, order)
  {
    if InOrder(inv) {
      forall t, files, order | Lists(files, inv) && Enumerates(order, inv.base) && Run(t, files, order).Some?
        ensures Settled(t, Run(t, files, order).value, order)
      {
        assert forall s :: PathsOf(files, s) == Some(inv.Of(s));
        RunSettles(t, files, order);
      }
    } else {
      var s, p :| p in inv.Of(s) && !Inventoried(s, p);
      StaleLists(inv);
      OutOfRank(inv, inv.base, s, p);
      assert Distinct(inv.Of(Base)) && Enumerates(inv.base, inv.base);
      assert 0 <= Rank(Manifest(s)) < WRITES;
    }
  }
}
