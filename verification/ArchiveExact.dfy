/**
 What stands in the generated files of a refreshed archive, file by file.
 */
module ArchiveExact {
  import opened Json
  import opened Seqs
  import opened Sorting
  import opened Archive
  import opened ArchiveOrder
  import opened ArchiveIntegrity
  import FileNames

  // Which files a manifest can list: an extension what is not generated and combined documents,
  // the second one also the manifest of the first; the base all but its own control files.
  lemma InventoriedExactly(p: Path)
    ensures Inventoried(Web, p) <==> p.Other? || p.Complete?
    ensures Inventoried(Llm, p) <==> p.Other? || p.Complete? || p == Manifest(Web)
    ensures Inventoried(Base, p) <==> p != Manifest(Base) && p != Checksums(Base)
  {
  }

  // A manifest records the files it lists, in the order it lists them, with size and digest.
  lemma ManifestHolds(t: Tools, files: Files, order: seq<Path>, s: Suite)
    requires Right(RecipeOf(t, order), files, Manifest(s))
    ensures files[Manifest(s)].ManifestFile? && PathsOf(files, s).Some?
    ensures var paths, records := PathsOf(files, s).value, files[Manifest(s)].records;
            && |records| == |paths|
            && forall i :: 0 <= i < |paths| ==>
                 paths[i] in files && records[i] == Record(paths[i], t.size(files[paths[i]]), t.sha256(files[paths[i]]))
  {
    var paths := PathsOf(files, s).value;
    forall i | 0 <= i < |paths| ensures paths[i] in files { assert paths[i] in paths; }
  }

  // A checksum list is in the order of the paths.
  lemma LinesAscend(lines: seq<(string, Path)>, all: seq<Path>, le: (Path, Path) -> bool)
    requires LinePaths(lines) == Sort(all, le) && TotalPreorder(le)
    ensures multiset(LinePaths(lines)) == multiset(all)
    ensures forall i, j :: 0 <= i < j < |lines| ==> le(lines[i].1, lines[j].1)
  {
    SortSorted(all, le);
    SortMultiset(all, le);
    forall i | 0 <= i < |lines| ensures lines[i].1 == Sort(all, le)[i] { assert LinePaths(lines)[i] == Sort(all, le)[i]; }
  }

  lemma ChecksumsAscend(t: Tools, files: Files, order: seq<Path>, s: Suite)
    requires Right(RecipeOf(t, order), files, Checksums(s)) && TotalPreorder(t.pathLe)
    ensures files[Checksums(s)].SumsFile? && PathsOf(files, s).Some?
    ensures var lines := files[Checksums(s)].lines;
            && multiset(LinePaths(lines)) == multiset(PathsOf(files, s).value + [Manifest(s)])
            && (forall i :: 0 <= i < |lines| ==> lines[i].1 in files && lines[i].0 == t.sha256(files[lines[i].1]))
            && forall i, j :: 0 <= i < j < |lines| ==> t.pathLe(lines[i].1, lines[j].1)
  {
    var all := PathsOf(files, s).value + [Manifest(s)];
    assert LinePaths(files[Checksums(s)].lines) == Sort(all, t.pathLe);
    LinesAscend(files[Checksums(s)].lines, all, t.pathLe);
  }

  // The document manifest is in the order of the specification ids.
  lemma DocumentsAscend(t: Tools, files: Files, order: seq<Path>)
    requires Right(RecipeOf(t, order), files, SpecManifest)
    ensures files[SpecManifest].SpecFile?
    ensures var ds := files[SpecManifest].documents;
            forall i, j :: 0 <= i < j < |ds| ==>
              ds[i].front.specId == ds[j].front.specId || StrLess(ds[i].front.specId, ds[j].front.specId)
  {
    var ds := Documents(t, files, Markdown(order));
    SpecIdOrder();
    SortSorted(ds, BySpecId);
    var sorted := Sort(ds, BySpecId);
    forall i, j | 0 <= i < j < |sorted|
      ensures sorted[i].front.specId == sorted[j].front.specId || StrLess(sorted[i].front.specId, sorted[j].front.specId)
    {
      assert BySpecId(sorted[i], sorted[j]);
    }
  }

  // Its entries are the Markdown files that were walked, each with its front matter, size and digest.
  lemma DocumentsHold(t: Tools, files: Files, order: seq<Path>)
    requires Right(RecipeOf(t, order), files, SpecManifest)
    ensures files[SpecManifest].SpecFile?
    ensures forall d :: d in files[SpecManifest].documents <==>
              exists p :: p in order && (p.Complete? || (p.Other? && FileNames.Markdown(p.name)))
                          && p in files && t.frontmatter(files[p]) == Some(d.front)
                          && d.record == Record(p, t.size(files[p]), t.sha256(files[p]))
  {
    var paths := Markdown(order);
    var ds := Documents(t, files, paths);
    SortMembers(ds, BySpecId);
    MarkdownMembers(order);
    forall p | p in paths ensures DocumentOf(t, files, p) in ds {
      var i :| 0 <= i < |paths| && paths[i] == p;
      assert ds[i] == DocumentOf(t, files, p);
    }
    forall d | d in ds ensures exists p :: p in paths && d == DocumentOf(t, files, p) {
      var i :| 0 <= i < |ds| && ds[i] == d;
      assert paths[i] in paths;
    }
  }

  lemma {:induction false} MarkdownMembers(paths: seq<Path>)
    ensures forall p :: p in Markdown(paths) <==> p in paths && (p.Complete? || (p.Other? && FileNames.Markdown(p.name)))
  {
    if paths != [] {
      MarkdownMembers(paths[..|paths| - 1]);
      assert paths == paths[..|paths| - 1] + [paths[|paths| - 1]];
    }
  }

  // A combined document is made of what its suite lists and of files that are not generated.
  lemma CompleteHolds(t: Tools, files: Files, order: seq<Path>, s: Suite)
    requires Right(RecipeOf(t, order), files, Complete(s))
    ensures t.complete(s, Owned(files, s), Inputs(files)) == Some(files[Complete(s)])
  {
  }
}
