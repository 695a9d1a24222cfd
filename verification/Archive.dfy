/**
 The specification archive: manifests, checksum lists and combined documents,
 each computed from other files of the archive.
 */
module Archive {
  import opened Json
  import opened Seqs
  import opened Sorting
  import FileNames

  datatype Suite = Base | Web | Llm

  // The files that are generated, and every other file.
  datatype Path =
    | Complete(suite: Suite)
    | Manifest(suite: Suite)
    | Checksums(suite: Suite)
    | SpecManifest
    | Other(name: string)

  datatype Record = Record(path: Path, bytes: nat, sha256: string)

  datatype Frontmatter =
    Frontmatter(specId: string, title: string, version: string, status: string, lastVerified: string)

  datatype Document = Document(front: Frontmatter, record: Record)

  // A manifest keeps a frame of text around its records and counts.
  datatype Content =
    | Text(text: string)
    | ManifestFile(frame: string, records: seq<Record>, counts: seq<nat>)
    | SpecFile(frame: string, documents: seq<Document>)
    | SumsFile(lines: seq<(string, Path)>)

  type Files = map<Path, Content>

  // What is taken as given: the digest and size of a file, the order of paths, front matter
  // and whether it is proper, how combined documents and totals follow from files that are
  // not generated, and what feature suite manifests other than the two claim.
  datatype Tools = Tools(
    sha256: Content -> string,
    size: Content -> nat,
    pathLe: (Path, Path) -> bool,
    frontmatter: Content -> Option<Frontmatter>,
    proper: Frontmatter -> bool,
    complete: (Suite, set<Path>, Files) -> Option<Content>,
    totals: Files -> Option<Totals>,
    claimed: Files -> Option<set<Path>>)

  // The counts of the base manifest that are taken from catalogs and source lists.
  datatype Totals =
    Totals(modules: nat, profiles: nat, criteria: nat, tasks: nat, recommendations: nat, sources: nat)

  function Inputs(files: Files): Files {
    map p | p in files && p.Other? :: files[p]
  }

  function RecordPaths(records: seq<Record>): seq<Path> {
    seq(|records|, i requires 0 <= i < |records| => records[i].path)
  }

  function PathsOf(files: Files, s: Suite): Option<seq<Path>> {
    if Manifest(s) in files && files[Manifest(s)].ManifestFile?
    then Some(RecordPaths(files[Manifest(s)].records))
    else None
  }

  predicate Present(files: Files, paths: seq<Path>) {
    forall p :: p in paths ==> p in files
  }

  function RecordOf(t: Tools, files: Files, p: Path): Record
    requires p in files
  {
    Record(p, t.size(files[p]), t.sha256(files[p]))
  }

  function Records(t: Tools, files: Files, paths: seq<Path>): seq<Record>
    requires Present(files, paths)
  {
    seq(|paths|, i requires 0 <= i < |paths| => RecordOf(t, files, paths[i]))
  }

  function Lines(t: Tools, files: Files, paths: seq<Path>): seq<(string, Path)>
    requires Present(files, paths)
  {
    seq(|paths|, i requires 0 <= i < |paths| => (t.sha256(files[paths[i]]), paths[i]))
  }

  function Markdown(paths: seq<Path>): seq<Path> {
    if paths == [] then []
    else
      var last := paths[|paths| - 1];
      Markdown(paths[..|paths| - 1]) + if IsMarkdown(last) then [last] else []
  }

  predicate IsMarkdown(p: Path) {
    p.Complete? || (p.Other? && FileNames.Markdown(p.name))
  }

  // ----- The counts of a manifest -----

  function CountOf(paths: seq<Path>, counted: Path -> bool): nat {
    if paths == [] then 0
    else CountOf(paths[..|paths| - 1], counted) + if counted(paths[|paths| - 1]) then 1 else 0
  }

  predicate IsNumbered(p: Path) {
    p.Other? && FileNames.Numbered(p.name)
  }

  predicate IsAdr(p: Path) {
    p.Other? && FileNames.Adr(p.name)
  }

  function OwnCounts(paths: seq<Path>): seq<nat> {
    [|paths|, CountOf(paths, IsMarkdown), CountOf(paths, IsNumbered), CountOf(paths, IsAdr)]
  }

  function TotalCounts(x: Totals): seq<nat> {
    [x.modules, x.profiles, x.criteria, x.tasks, x.recommendations, x.sources]
  }

  // The base manifest also holds totals.
  function CountsOf(t: Tools, s: Suite, paths: seq<Path>, inputs: Files): Option<seq<nat>> {
    if s != Base then Some(OwnCounts(paths))
    else
      match t.totals(inputs)
      case None => None
      case Some(x) => Some(OwnCounts(paths) + TotalCounts(x))
  }

  predicate BySpecId(a: Document, b: Document) {
    StrLe(a.front.specId, b.front.specId)
  }

  predicate Described(t: Tools, files: Files, paths: seq<Path>) {
    forall p :: p in paths ==> p in files && t.frontmatter(files[p]).Some?
  }

  function DocumentOf(t: Tools, files: Files, p: Path): Document
    requires p in files && t.frontmatter(files[p]).Some?
  {
    Document(t.frontmatter(files[p]).value, RecordOf(t, files, p))
  }

  function Documents(t: Tools, files: Files, paths: seq<Path>): (r: seq<Document>)
    requires Described(t, files, paths)
    ensures |r| == |paths| && forall i :: 0 <= i < |paths| ==> r[i].record.path == paths[i]
  {
    seq(|paths|, i requires 0 <= i < |paths| => DocumentOf(t, files, paths[i]))
  }

  // `order` is the order in which the set of base paths happens to be walked.
  ghost predicate Enumerates(order: seq<Path>, paths: seq<Path>) {
    Distinct(order) && Elements(order) == Elements(paths)
  }

  // What a generated file has to hold, given all the others.
  function ContentOf(t: Tools, p: Path, files: Files, order: seq<Path>): Option<Content> {
    match p
    case Complete(s) =>
      if PathsOf(files, s).None? then None
      else t.complete(s, Elements(PathsOf(files, s).value), Inputs(files))
    case Manifest(s) =>
      if PathsOf(files, s).None? || !Present(files, PathsOf(files, s).value) then None
      else
        var records := Records(t, files, PathsOf(files, s).value);
        var counts := CountsOf(t, s, PathsOf(files, s).value, Inputs(files));
        if counts.None? then None else Some(ManifestFile(files[p].frame, records, counts.value))
    case Checksums(s) =>
      if PathsOf(files, s).None? then None
      else
        var paths := Sort(PathsOf(files, s).value + [Manifest(s)], t.pathLe);
        if Present(files, paths) then Some(SumsFile(Lines(t, files, paths))) else None
    case SpecManifest =>
      if PathsOf(files, Base).None? || p !in files || !files[p].SpecFile? then None
      else
        var paths := Markdown(order);
        if Described(t, files, paths)
        then Some(SpecFile(files[p].frame, Sort(Documents(t, files, paths), BySpecId)))
        else None
    case Other(_) => None
  }

  // ----- The order of the writes -----

  function Rank(p: Path): int {
    match p
    case Other(_) => -1
    case Complete(Base) => 0
    case Complete(Web) => 1
    case Complete(Llm) => 2
    case Manifest(Web) => 3
    case Manifest(Llm) => 4
    case Checksums(Web) => 5
    case Checksums(Llm) => 6
    case SpecManifest => 7
    case Manifest(Base) => 8
    case Checksums(Base) => 9
  }

  const WRITES := 10

  function PathAt(k: nat): (p: Path)
    requires k < WRITES
    ensures Rank(p) == k
  {
    match k
    case 0 => Complete(Base)
    case 1 => Complete(Web)
    case 2 => Complete(Llm)
    case 3 => Manifest(Web)
    case 4 => Manifest(Llm)
    case 5 => Checksums(Web)
    case 6 => Checksums(Llm)
    case 7 => SpecManifest
    case 8 => Manifest(Base)
    case 9 => Checksums(Base)
  }

  lemma RankUnique(p: Path, q: Path)
    requires Rank(p) == Rank(q) >= 0
    ensures p == q
  {
  }

  // A manifest may list what is written before it.
  predicate Inventoried(s: Suite, p: Path) {
    Rank(p) < Rank(Manifest(s))
  }

  ghost predicate Ordered(files: Files) {
    forall s, p :: PathsOf(files, s).Some? && p in PathsOf(files, s).value ==> Inventoried(s, p)
  }

  // The files whose bytes go into a generated one.
  ghost predicate Digested(t: Tools, p: Path, files: Files, order: seq<Path>, q: Path) {
    match p
    case Manifest(s) => PathsOf(files, s).Some? && q in PathsOf(files, s).value
    case Checksums(s) => PathsOf(files, s).Some? && (q in PathsOf(files, s).value || q == Manifest(s))
    case SpecManifest => q in Markdown(order)
    case _ => false
  }

  lemma {:induction false} MarkdownMembers(paths: seq<Path>)
    ensures forall p :: p in Markdown(paths) <==> p in paths && IsMarkdown(p)
  {
    if paths != [] {
      MarkdownMembers(paths[..|paths| - 1]);
      assert paths == paths[..|paths| - 1] + [paths[|paths| - 1]];
    }
  }

  // Everything digested was written before.
  lemma DigestedEarlier(t: Tools, p: Path, files: Files, order: seq<Path>, q: Path)
    requires Ordered(files) && Digested(t, p, files, order, q)
    ensures Rank(q) < Rank(p)
  {
    if p.SpecManifest? { MarkdownMembers(order); }
  }

  // ----- What a write may not disturb -----

  ghost predicate SameFrame(a: Files, b: Files, p: Path) {
    && (p in a && a[p].ManifestFile? <==> p in b && b[p].ManifestFile?)
    && (p in a && a[p].SpecFile? <==> p in b && b[p].SpecFile?)
    && (p in a && a[p].ManifestFile? ==>
          a[p].frame == b[p].frame && RecordPaths(a[p].records) == RecordPaths(b[p].records))
    && (p in a && a[p].SpecFile? ==> a[p].frame == b[p].frame)
  }

  // The same inventories and frames, and the same files that are not generated.
  ghost predicate SameShape(a: Files, b: Files) {
    && Inputs(a) == Inputs(b)
    && (forall s :: SameFrame(a, b, Manifest(s)))
    && SameFrame(a, b, SpecManifest)
  }

  ghost predicate SameAt(a: Files, b: Files, p: Path) {
    (p in a <==> p in b) && (p in a ==> a[p] == b[p])
  }

  lemma SamePaths(a: Files, b: Files, s: Suite)
    requires SameShape(a, b)
    ensures PathsOf(a, s) == PathsOf(b, s)
  {
    assert SameFrame(a, b, Manifest(s));
  }

  lemma SameRecords(t: Tools, a: Files, b: Files, paths: seq<Path>)
    requires forall p :: p in paths ==> SameAt(a, b, p)
    ensures Present(a, paths) <==> Present(b, paths)
    ensures Present(a, paths) ==> Records(t, a, paths) == Records(t, b, paths) && Lines(t, a, paths) == Lines(t, b, paths)
  {
    if forall p :: p in paths ==> p in a {
      forall i | 0 <= i < |paths| ensures paths[i] in a && paths[i] in b && a[paths[i]] == b[paths[i]] {
        assert paths[i] in paths;
      }
    }
  }

  lemma SameDocuments(t: Tools, a: Files, b: Files, paths: seq<Path>)
    requires forall p :: p in paths ==> SameAt(a, b, p)
    ensures Described(t, a, paths) <==> Described(t, b, paths)
    ensures Described(t, a, paths) ==> Documents(t, a, paths) == Documents(t, b, paths)
  {
    if Described(t, a, paths) {
      forall i | 0 <= i < |paths| ensures paths[i] in a && paths[i] in b && a[paths[i]] == b[paths[i]] {
        assert paths[i] in paths;
      }
    }
  }

  // A generated file depends on shapes and inputs, and on the bytes it digests; nothing else.
  lemma ContentDepends(t: Tools, p: Path, a: Files, b: Files, order: seq<Path>)
    requires SameShape(a, b) && forall q :: Digested(t, p, a, order, q) ==> SameAt(a, b, q)
    ensures ContentOf(t, p, a, order) == ContentOf(t, p, b, order)
  {
    SamePaths(a, b, Base);
    match p
    case Complete(s) => SamePaths(a, b, s);
    case Manifest(s) => {
      SamePaths(a, b, s);
      assert SameFrame(a, b, p);
      if PathsOf(a, s).Some? { SameRecords(t, a, b, PathsOf(a, s).value); }
    }
    case Checksums(s) => {
      SamePaths(a, b, s);
      if PathsOf(a, s).Some? {
        SortMembers(PathsOf(a, s).value + [Manifest(s)], t.pathLe);
        SameRecords(t, a, b, Sort(PathsOf(a, s).value + [Manifest(s)], t.pathLe));
      }
    }
    case SpecManifest => {
      assert SameFrame(a, b, p);
      SameDocuments(t, a, b, Markdown(order));
    }
    case Other(_) =>
  }

  lemma WriteKeepsShape(t: Tools, p: Path, files: Files, order: seq<Path>, c: Content)
    requires ContentOf(t, p, files, order) == Some(c)
    ensures SameShape(files, files[p := c])
  {
    var after := files[p := c];
    assert Inputs(files) == Inputs(after);
    if p.Manifest? {
      var paths := PathsOf(files, p.suite).value;
      assert RecordPaths(c.records) == paths;
    }
  }

  lemma ShapeTransitive(a: Files, b: Files, c: Files)
    requires SameShape(a, b) && SameShape(b, c)
    ensures SameShape(a, c)
  {
    forall s ensures SameFrame(a, c, Manifest(s)) { assert SameFrame(a, b, Manifest(s)) && SameFrame(b, c, Manifest(s)); }
  }

  // ----- The whole refresh -----

  // What is written to a path when the files are as they are, if anything can be.
  type Recipe = (Path, Files) -> Option<Content>

  function RecipeOf(t: Tools, order: seq<Path>): Recipe {
    (p: Path, files: Files) => ContentOf(t, p, files, order)
  }

  // The first `k` writes, each of what the files as they then are call for.
  function RunTo(g: Recipe, files: Files, k: nat): Option<Files>
    requires k <= WRITES
  {
    if k == 0 then Some(files)
    else
      match RunTo(g, files, k - 1)
      case None => None
      case Some(before) =>
        match g(PathAt(k - 1), before)
        case None => None
        case Some(c) => Some(before[PathAt(k - 1) := c])
  }

  function Run(t: Tools, files: Files, order: seq<Path>): Option<Files> {
    RunTo(RecipeOf(t, order), files, WRITES)
  }

  ghost predicate Right(g: Recipe, files: Files, p: Path) {
    p in files && g(p, files) == Some(files[p])
  }

  // The first `k` generated files are what the archive, as it stands, calls for.
  ghost predicate Progress(g: Recipe, files: Files, k: int) {
    forall p :: 0 <= Rank(p) < k ==> Right(g, files, p)
  }

  ghost predicate Settled(t: Tools, files: Files, order: seq<Path>) {
    Progress(RecipeOf(t, order), files, WRITES)
  }

  lemma OrderedKept(a: Files, b: Files)
    requires Ordered(a) && SameShape(a, b)
    ensures Ordered(b)
  {
    forall s ensures PathsOf(a, s) == PathsOf(b, s) { SamePaths(a, b, s); }
  }

  // A write keeps shapes, and where the files are ordered also what is right.
  ghost predicate Keeps(g: Recipe, files: Files, p: Path, c: Content) {
    && SameShape(files, files[p := c])
    && (Ordered(files) && Progress(g, files, Rank(p)) ==>
          Ordered(files[p := c]) && Progress(g, files[p := c], Rank(p) + 1))
  }

  ghost predicate Steady(g: Recipe) {
    forall files, p, c :: 0 <= Rank(p) && g(p, files) == Some(c) ==> Keeps(g, files, p, c)
  }

  // Each write makes its file right and keeps the earlier ones right.
  lemma WriteProgresses(t: Tools, p: Path, files: Files, order: seq<Path>, c: Content)
    requires Ordered(files) && Rank(p) >= 0 && Progress(RecipeOf(t, order), files, Rank(p))
    requires ContentOf(t, p, files, order) == Some(c)
    ensures Ordered(files[p := c]) && Progress(RecipeOf(t, order), files[p := c], Rank(p) + 1)
  {
    var g, after := RecipeOf(t, order), files[p := c];
    WriteKeepsShape(t, p, files, order, c);
    OrderedKept(files, after);
    forall q | 0 <= Rank(q) < Rank(p) + 1 ensures Right(g, after, q) {
      assert Rank(q) < Rank(p) ==> Right(g, files, q);
      forall d | Digested(t, q, files, order, d) ensures SameAt(files, after, d) {
        DigestedEarlier(t, q, files, order, d);
      }
      ContentDepends(t, q, files, after, order);
      if Rank(q) == Rank(p) { RankUnique(p, q); }
    }
  }

  lemma RecipeSteady(t: Tools, order: seq<Path>)
    ensures Steady(RecipeOf(t, order))
  {
    var g := RecipeOf(t, order);
    forall files, p, c | 0 <= Rank(p) && g(p, files) == Some(c) ensures Keeps(g, files, p, c) {
      WriteKeepsShape(t, p, files, order, c);
      if Ordered(files) && Progress(g, files, Rank(p)) { WriteProgresses(t, p, files, order, c); }
    }
  }

  // The last of the first `k` writes.
  lemma LastWrite(g: Recipe, files: Files, k: nat) returns (before: Files, p: Path, c: Content)
    requires 0 < k <= WRITES && RunTo(g, files, k).Some?
    ensures RunTo(g, files, k - 1) == Some(before) && RunTo(g, files, k) == Some(before[p := c])
    ensures Rank(p) == k - 1 && g(p, before) == Some(c)
  {
    before, p := RunTo(g, files, k - 1).value, PathAt(k - 1);
    c := g(p, before).value;
  }

  // The run touches no file but those it writes, and keeps inventories and frames.
  lemma {:induction false} RunKeeps(g: Recipe, files: Files, k: nat)
    requires k <= WRITES && Steady(g) && RunTo(g, files, k).Some?
    ensures SameShape(files, RunTo(g, files, k).value)
    ensures forall p :: Rank(p) < 0 || k <= Rank(p) ==> SameAt(files, RunTo(g, files, k).value, p)
  {
    if k > 0 {
      RunKeeps(g, files, k - 1);
      var before, p, c := LastWrite(g, files, k);
      assert Keeps(g, before, p, c);
      ShapeTransitive(files, before, before[p := c]);
    }
  }

  // What is written stays until the end.
  lemma {:induction false} RunLater(g: Recipe, files: Files, j: nat, k: nat, p: Path)
    requires 0 <= Rank(p) < j <= k <= WRITES && RunTo(g, files, k).Some?
    ensures RunTo(g, files, j).Some?
    ensures SameAt(RunTo(g, files, j).value, RunTo(g, files, k).value, p)
  {
    if j < k {
      var before, q, c := LastWrite(g, files, k);
      RunLater(g, files, j, k - 1, p);
    }
  }

  // Where manifests list only what is written before them, the run leaves all files right.
  lemma {:induction false} RunProgresses(g: Recipe, files: Files, k: nat)
    requires k <= WRITES && Steady(g) && Ordered(files) && RunTo(g, files, k).Some?
    ensures Ordered(RunTo(g, files, k).value) && Progress(g, RunTo(g, files, k).value, k)
  {
    if k > 0 {
      RunProgresses(g, files, k - 1);
      var before, p, c := LastWrite(g, files, k);
      assert Keeps(g, before, p, c);
    }
  }

  lemma RunSettles(t: Tools, files: Files, order: seq<Path>)
    requires Ordered(files) && Run(t, files, order).Some?
    ensures Settled(t, Run(t, files, order).value, order) && SameShape(files, Run(t, files, order).value)
  {
    RecipeSteady(t, order);
    RunKeeps(RecipeOf(t, order), files, WRITES);
    RunProgresses(RecipeOf(t, order), files, WRITES);
  }

  // A run over files that are all right changes nothing.
  lemma {:induction false} RunSettled(g: Recipe, files: Files, k: nat)
    requires k <= WRITES && Progress(g, files, k)
    ensures RunTo(g, files, k) == Some(files)
  {
    if k > 0 {
      RunSettled(g, files, k - 1);
      assert Right(g, files, PathAt(k - 1));
      assert files[PathAt(k - 1) := files[PathAt(k - 1)]] == files;
    }
  }

  // A run that ends where it began never left: every file is written once.
  lemma {:induction false} RunUnchanged(g: Recipe, files: Files, k: nat, j: nat)
    requires j <= k <= WRITES && Steady(g) && RunTo(g, files, k) == Some(files)
    ensures RunTo(g, files, j) == Some(files)
  {
    if j < k {
      var before, p, c := LastWrite(g, files, k);
      RunKeeps(g, files, k - 1);
      WroteNothing(files, before, p, c);
      RunUnchanged(g, files, k - 1, j);
    }
  }

  lemma WroteNothing(files: Files, before: Files, p: Path, c: Content)
    requires files == before[p := c] && SameAt(files, before, p)
    ensures before == files
  {
    assert files[p] == c && before[p] == c;
  }
}
