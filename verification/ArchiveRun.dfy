/**
 The run that refreshes the archive, file after file, and writes only what changed.
 */
module ArchiveRun {
  import opened Json
  import opened Seqs
  import opened Sorting
  import opened Archive
  import opened ArchiveOrder

  // The three inventories can be read and list no path twice.
  predicate Listed(files: Files) {
    ListedIn(files, Base) && ListedIn(files, Web) && ListedIn(files, Llm)
  }

  predicate ListedIn(files: Files, s: Suite) {
    PathsOf(files, s).Some? && Distinct(PathsOf(files, s).value)
  }

  // Half-way: the first `k` writes are done, and they are counted exactly if something changed.
  ghost predicate RunningAt(g: Recipe, files: Files, writes: nat, start: Files, count: nat, k: nat) {
    && k <= WRITES && RunTo(g, start, k) == Some(files)
    && count <= writes && (writes == count <==> files == start)
  }

  lemma {:induction false} RunStops(g: Recipe, files: Files, j: nat, k: nat)
    requires j <= k <= WRITES && RunTo(g, files, j).None?
    ensures RunTo(g, files, k).None?
  {
    if j < k { RunStops(g, files, j, k - 1); }
  }

  class FileSystem {
    var files: Files
    var writes: nat

    constructor (files: Files)
      ensures this.files == files && writes == 0
    {
      this.files := files;
      writes := 0;
    }

    method WriteIfChanged(p: Path, c: Content)
      modifies this
      ensures files == old(files)[p := c]
      ensures writes == old(writes) + if p in old(files) && old(files)[p] == c then 0 else 1
    {
      if p in files && files[p] == c {
        assert files[p := c] == files;
        return;
      }
      files := files[p := c];
      writes := writes + 1;
    }

    // What refreshing one generated file does, to `before` after `count` writes: write
    // its content, or fail and leave everything.
    ghost predicate Refreshed(g: Recipe, p: Path, ok: bool, before: Files, count: nat)
      reads this
    {
      && (ok <==> g(p, before).Some?)
      && files == (if ok then before[p := g(p, before).value] else before)
      && writes == count + if files == before then 0 else 1
    }

    method ArchivePaths(s: Suite) returns (paths: Option<set<Path>>)
      ensures paths.Some? <==> ListedIn(files, s)
      ensures paths.Some? ==> paths.value == Elements(PathsOf(files, s).value)
    {
      var listed := PathsOf(files, s);
      if listed.Some? { ElementsBound(listed.value); }
      if listed.None? || |Elements(listed.value)| != |listed.value| { return None; }
      paths := Some(Elements(listed.value));
    }

    method RenderComplete(t: Tools, s: Suite, owned: set<Path>, ghost order: seq<Path>) returns (ok: bool)
      requires PathsOf(files, s).Some? && owned == Elements(PathsOf(files, s).value)
      modifies this
      ensures Refreshed(RecipeOf(t, order), Complete(s), ok, old(files), old(writes))
    {
      var output := t.complete(s, owned, Inputs(files));
      if output.None? { return false; }
      WriteIfChanged(Complete(s), output.value);
      ok := true;
    }

    method CollectRecords(t: Tools, paths: seq<Path>) returns (records: Option<seq<Record>>)
      ensures records.Some? <==> Present(files, paths)
      ensures records.Some? ==> records.value == Records(t, files, paths)
    {
      var collected := [];
      for i := 0 to |paths|
        invariant Present(files, paths[..i]) && collected == Records(t, files, paths[..i])
      {
        if paths[i] !in files { return None; }
        collected := collected + [RecordOf(t, files, paths[i])];
      }
      assert paths[..|paths|] == paths;
      records := Some(collected);
    }

    method RefreshManifest(t: Tools, s: Suite, ghost order: seq<Path>) returns (paths: Option<seq<Path>>)
      modifies this
      ensures Refreshed(RecipeOf(t, order), Manifest(s), paths.Some?, old(files), old(writes))
      ensures paths.Some? ==> PathsOf(old(files), s) == paths == PathsOf(files, s)
    {
      var listed := PathsOf(files, s);
      if listed.None? { return None; }
      var records := CollectRecords(t, listed.value);
      if records.None? { return None; }
      var counts := CountsOf(t, s, listed.value, Inputs(files));
      if counts.None? { return None; }
      WriteIfChanged(Manifest(s), ManifestFile(files[Manifest(s)].frame, records.value, counts.value));
      paths := listed;
      assert RecordPaths(records.value) == listed.value;
    }

    method WriteChecksums(t: Tools, s: Suite, paths: seq<Path>, ghost order: seq<Path>) returns (ok: bool)
      requires PathsOf(files, s) == Some(paths)
      modifies this
      ensures Refreshed(RecipeOf(t, order), Checksums(s), ok, old(files), old(writes))
    {
      var sorted := Sort(paths + [Manifest(s)], t.pathLe);
      var output := [];
      for i := 0 to |sorted|
        invariant files == old(files) && writes == old(writes)
        invariant Present(files, sorted[..i]) && output == Lines(t, files, sorted[..i])
      {
        if sorted[i] !in files { return false; }
        output := output + [(t.sha256(files[sorted[i]]), sorted[i])];
      }
      assert sorted[..|sorted|] == sorted;
      WriteIfChanged(Checksums(s), SumsFile(output));
      ok := true;
    }

    method CollectDocuments(t: Tools, paths: seq<Path>) returns (documents: Option<seq<Document>>)
      ensures documents.Some? <==> Described(t, files, Markdown(paths))
      ensures documents.Some? ==> documents.value == Documents(t, files, Markdown(paths))
    {
      var collected := [];
      for i := 0 to |paths|
        invariant Described(t, files, Markdown(paths[..i]))
        invariant collected == Documents(t, files, Markdown(paths[..i]))
      {
        assert paths[..i + 1][..i] == paths[..i];
        if IsMarkdown(paths[i]) {
          if paths[i] !in files || t.frontmatter(files[paths[i]]).None? {
            MarkdownMembers(paths);
            return None;
          }
          collected := collected + [DocumentOf(t, files, paths[i])];
        }
      }
      assert paths[..|paths|] == paths;
      documents := Some(collected);
    }

    // `order` lists the owned paths as the set happens to yield them.
    method RefreshDocuments(t: Tools, owned: set<Path>, order: seq<Path>) returns (ok: bool)
      requires PathsOf(files, Base).Some? && Distinct(order) && Elements(order) == owned
      modifies this
      ensures Refreshed(RecipeOf(t, order), SpecManifest, ok, old(files), old(writes))
    {
      if SpecManifest !in files || !files[SpecManifest].SpecFile? { return false; }
      var documents := CollectDocuments(t, order);
      if documents.None? { return false; }
      WriteIfChanged(SpecManifest, SpecFile(files[SpecManifest].frame, Sort(documents.value, BySpecId)));
      ok := true;
    }

    // ----- The whole refresh -----

    ghost predicate Running(g: Recipe, start: Files, count: nat, k: nat)
      reads this
    {
      RunningAt(g, files, writes, start, count, k)
    }

    lemma Stepped(g: Recipe, p: Path, ok: bool, before: Files, written: nat, start: Files, count: nat)
      requires Rank(p) >= 0 && Steady(g) && Refreshed(g, p, ok, before, written)
      requires RunningAt(g, before, written, start, count, Rank(p))
      ensures ok ==> Running(g, start, count, Rank(p) + 1)
      ensures !ok ==> RunTo(g, start, WRITES).None?
      ensures forall s :: PathsOf(files, s) == PathsOf(start, s)
    {
      var k := Rank(p);
      assert k < WRITES;
      RankUnique(p, PathAt(k));
      RunKeeps(g, start, k);
      if ok {
        assert Keeps(g, before, p, g(p, before).value);
        ShapeTransitive(start, before, files);
        if files != before { assert SameAt(start, before, p); }
      } else {
        RunStops(g, start, k + 1, WRITES);
      }
      forall s ensures PathsOf(files, s) == PathsOf(start, s) { SamePaths(start, files, s); }
    }

    // The files become those of the run, or the run is impossible; a write is made exactly
    // when something changes.
    method Generate(t: Tools, order: seq<Path>) returns (ok: bool)
      requires PathsOf(files, Base).Some? ==> Enumerates(order, PathsOf(files, Base).value)
      modifies this
      ensures ok <==> Listed(old(files)) && Run(t, old(files), order).Some?
      ensures ok ==> files == Run(t, old(files), order).value
      ensures ok ==> (writes == old(writes) <==> files == old(files))
      ensures ok ==> forall s :: PathsOf(files, s) == PathsOf(old(files), s)
      ensures ok && Ordered(old(files)) ==> Settled(t, files, order)
      ensures Listed(old(files)) && Settled(t, old(files), order) ==> ok && files == old(files)
    {
      var base := ArchivePaths(Base);
      var web := ArchivePaths(Web);
      var llm := ArchivePaths(Llm);
      if Settled(t, files, order) { RunSettled(RecipeOf(t, order), files, WRITES); }
      if base.None? || web.None? || llm.None? { return false; }
      RecipeSteady(t, order);
      ok := RenderAll(t, base.value, web.value, llm.value, order, files, writes);
      if !ok { return; }
      ok := RefreshExtensions(t, order, old(files), old(writes));
      if !ok { return; }
      ok := RefreshBase(t, base.value, order, old(files), old(writes));
      if ok && Ordered(old(files)) { RunSettles(t, old(files), order); }
    }

    method RenderAll(t: Tools, base: set<Path>, web: set<Path>, llm: set<Path>, ghost order: seq<Path>,
                     ghost start: Files, ghost count: nat) returns (ok: bool)
      requires Steady(RecipeOf(t, order)) && Running(RecipeOf(t, order), start, count, 0) && Listed(files)
      requires base == Elements(PathsOf(files, Base).value)
      requires web == Elements(PathsOf(files, Web).value)
      requires llm == Elements(PathsOf(files, Llm).value)
      modifies this
      ensures ok ==> Running(RecipeOf(t, order), start, count, 3) && forall s :: PathsOf(files, s) == PathsOf(start, s)
      ensures !ok ==> Run(t, start, order).None?
    {
      ghost var g := RecipeOf(t, order);
      ghost var before, written := files, writes;
      ok := RenderComplete(t, Base, base, order);
      Stepped(g, Complete(Base), ok, before, written, start, count);
      if !ok { return; }
      before, written := files, writes;
      ok := RenderComplete(t, Web, web, order);
      Stepped(g, Complete(Web), ok, before, written, start, count);
      if !ok { return; }
      before, written := files, writes;
      ok := RenderComplete(t, Llm, llm, order);
      Stepped(g, Complete(Llm), ok, before, written, start, count);
    }

    method RefreshManifests(t: Tools, ghost order: seq<Path>, ghost start: Files, ghost count: nat)
      returns (web: Option<seq<Path>>, llm: Option<seq<Path>>)
      requires Steady(RecipeOf(t, order)) && Running(RecipeOf(t, order), start, count, 3)
      modifies this
      ensures web.Some? && llm.Some? ==> Running(RecipeOf(t, order), start, count, 5)
      ensures web.Some? && llm.Some? ==> PathsOf(files, Web) == web && PathsOf(files, Llm) == llm
      ensures web.None? || llm.None? ==> Run(t, start, order).None?
    {
      ghost var g := RecipeOf(t, order);
      ghost var before, written := files, writes;
      llm := None;
      web := RefreshManifest(t, Web, order);
      Stepped(g, Manifest(Web), web.Some?, before, written, start, count);
      if web.None? { return; }
      before, written := files, writes;
      llm := RefreshManifest(t, Llm, order);
      Stepped(g, Manifest(Llm), llm.Some?, before, written, start, count);
    }

    method RefreshExtensions(t: Tools, ghost order: seq<Path>, ghost start: Files, ghost count: nat) returns (ok: bool)
      requires Steady(RecipeOf(t, order)) && Running(RecipeOf(t, order), start, count, 3)
      modifies this
      ensures ok ==> Running(RecipeOf(t, order), start, count, 7) && forall s :: PathsOf(files, s) == PathsOf(start, s)
      ensures !ok ==> Run(t, start, order).None?
    {
      ghost var g := RecipeOf(t, order);
      var webPaths, llmPaths := RefreshManifests(t, order, start, count);
      if webPaths.None? || llmPaths.None? { return false; }
      ghost var before, written := files, writes;
      ok := WriteChecksums(t, Web, webPaths.value, order);
      Stepped(g, Checksums(Web), ok, before, written, start, count);
      if !ok { return; }
      before, written := files, writes;
      ok := WriteChecksums(t, Llm, llmPaths.value, order);
      Stepped(g, Checksums(Llm), ok, before, written, start, count);
    }

    method RefreshBase(t: Tools, owned: set<Path>, order: seq<Path>, ghost start: Files, ghost count: nat)
      returns (ok: bool)
      requires Steady(RecipeOf(t, order)) && Running(RecipeOf(t, order), start, count, 7)
      requires PathsOf(files, Base).Some? && Distinct(order) && Elements(order) == owned
      modifies this
      ensures ok ==> Running(RecipeOf(t, order), start, count, 10) && forall s :: PathsOf(files, s) == PathsOf(start, s)
      ensures !ok ==> Run(t, start, order).None?
    {
      ghost var g := RecipeOf(t, order);
      ghost var before, written := files, writes;
      ok := RefreshDocuments(t, owned, order);
      Stepped(g, SpecManifest, ok, before, written, start, count);
      if !ok { return; }
      before, written := files, writes;
      var basePaths := RefreshManifest(t, Base, order);
      Stepped(g, Manifest(Base), basePaths.Some?, before, written, start, count);
      if basePaths.None? { return false; }
      before, written := files, writes;
      ok := WriteChecksums(t, Base, basePaths.value, order);
      Stepped(g, Checksums(Base), ok, before, written, start, count);
    }

    // A second refresh, walking as it may, finds nothing to write where no two documents of the
    // base share an id; `SecondRunExactly` has the converse.
    method GenerateTwice(t: Tools, order: seq<Path>, again: seq<Path>)
      returns (ok: bool, between: Files, written: nat, okAgain: bool)
      requires PathsOf(files, Base).Some? ==>
                 Enumerates(order, PathsOf(files, Base).value) && Enumerates(again, PathsOf(files, Base).value)
      modifies this
      ensures ok && Ordered(old(files)) && DistinctIds(t, between, Elements(again)) ==>
                okAgain && files == between && writes == written
    {
      ok := Generate(t, order);
      between, written := files, writes;
      if !ok { return ok, between, written, false; }
      if Ordered(old(files)) && DistinctIds(t, files, Elements(again)) {
        SettledAnyOrder(t, files, PathsOf(files, Base).value, order, again);
      }
      okAgain := Generate(t, again);
    }
  }
}
