/**
 The order in which the base paths are walked: it shows in the document manifest exactly
 where two documents carry one specification id.
 */
module ArchiveOrder {
  import opened Json
  import opened Seqs
  import opened Sorting
  import opened Archive

  predicate SharesId(t: Tools, files: Files, p: Path, q: Path) {
    && p in files && q in files
    && t.frontmatter(files[p]).Some? && t.frontmatter(files[q]).Some?
    && t.frontmatter(files[p]).value.specId == t.frontmatter(files[q]).value.specId
  }

  ghost predicate DistinctIds(t: Tools, files: Files, paths: set<Path>) {
    forall p, q :: p in paths && q in paths && IsMarkdown(p) && IsMarkdown(q) && p != q ==>
      !SharesId(t, files, p, q)
  }

  function DocumentList(t: Tools, files: Files, order: seq<Path>): seq<Document>
    requires Described(t, files, Markdown(order))
  {
    Sort(Documents(t, files, Markdown(order)), BySpecId)
  }

  // ----- Where ids are distinct the order does not show

  lemma {:induction false} MarkdownDistinct(paths: seq<Path>)
    requires Distinct(paths)
    ensures Distinct(Markdown(paths))
  {
    if paths != [] {
      var front, last := paths[..|paths| - 1], paths[|paths| - 1];
      MarkdownDistinct(front);
      MarkdownMembers(front);
      assert last !in front;
      if IsMarkdown(last) { DistinctSnoc(Markdown(front), last); }
    }
  }

  lemma SameMarkdown(a: seq<Path>, b: seq<Path>)
    requires Elements(a) == Elements(b)
    ensures forall p :: p in Markdown(a) <==> p in Markdown(b)
  {
    MarkdownMembers(a);
    MarkdownMembers(b);
    forall p ensures p in a <==> p in b { assert p in Elements(a) <==> p in Elements(b); }
  }

  lemma SpecIdOrder()
    ensures TotalPreorder(BySpecId)
  {
    StrLeTotal();
    forall x, y ensures BySpecId(x, y) || BySpecId(y, x) {
      assert StrLe(x.front.specId, y.front.specId) || StrLe(y.front.specId, x.front.specId);
    }
    forall x, y, z | BySpecId(x, y) && BySpecId(y, z) ensures BySpecId(x, z) {
      assert StrLe(x.front.specId, y.front.specId) && StrLe(y.front.specId, z.front.specId);
    }
  }

  lemma DocumentMembers(t: Tools, files: Files, paths: seq<Path>, d: Document)
    requires Described(t, files, paths)
    ensures d in Documents(t, files, paths) <==>
            d.record.path in paths && d == DocumentOf(t, files, d.record.path)
  {
    var ds := Documents(t, files, paths);
    if d in ds {
      var i :| 0 <= i < |ds| && ds[i] == d;
      assert paths[i] in paths;
    } else if d.record.path in paths {
      var i :| 0 <= i < |paths| && paths[i] == d.record.path;
      assert ds[i] in ds && ds[i] == DocumentOf(t, files, paths[i]);
    }
  }

  lemma DocumentsDistinct(t: Tools, files: Files, paths: seq<Path>)
    requires Described(t, files, paths) && Distinct(paths)
    ensures Distinct(Documents(t, files, paths))
  {
    var ds := Documents(t, files, paths);
    forall i, j | 0 <= i < j < |ds| ensures ds[i] != ds[j] { assert ds[i].record.path != ds[j].record.path; }
  }

  lemma ListStrict(t: Tools, files: Files, order: seq<Path>)
    requires Distinct(order) && Described(t, files, Markdown(order)) && DistinctIds(t, files, Elements(order))
    ensures StrictlySorted(DocumentList(t, files, order), BySpecId)
    ensures AntisymmetricOn(DocumentList(t, files, order), BySpecId)
  {
    var paths := Markdown(order);
    var ds := Documents(t, files, paths);
    MarkdownDistinct(order);
    DocumentsDistinct(t, files, paths);
    SpecIdOrder();
    SortSorted(ds, BySpecId);
    SortMultiset(ds, BySpecId);
    SameElements(Sort(ds, BySpecId), ds);
    SortMembers(ds, BySpecId);
    forall x, y | x in Sort(ds, BySpecId) && y in Sort(ds, BySpecId) && BySpecId(x, y) && BySpecId(y, x)
      ensures x == y
    {
      SameIdSame(t, files, order, x, y);
    }
  }

  lemma SameIdSame(t: Tools, files: Files, order: seq<Path>, x: Document, y: Document)
    requires Described(t, files, Markdown(order)) && DistinctIds(t, files, Elements(order))
    requires x in Documents(t, files, Markdown(order)) && y in Documents(t, files, Markdown(order))
    requires BySpecId(x, y) && BySpecId(y, x)
    ensures x == y
  {
    StrLeTotal();
    MarkdownMembers(order);
    DocumentMembers(t, files, Markdown(order), x);
    DocumentMembers(t, files, Markdown(order), y);
    var p, q := x.record.path, y.record.path;
    assert SharesId(t, files, p, q);
    assert p in Elements(order) && q in Elements(order);
  }

  lemma DocumentsOnce(t: Tools, files: Files, a: seq<Path>, b: seq<Path>)
    requires Distinct(a) && Distinct(b) && Elements(a) == Elements(b) && DistinctIds(t, files, Elements(a))
    requires Described(t, files, Markdown(a))
    ensures Described(t, files, Markdown(b)) && DocumentList(t, files, a) == DocumentList(t, files, b)
  {
    SameMarkdown(a, b);
    ListStrict(t, files, a);
    ListStrict(t, files, b);
    var x, y := Documents(t, files, Markdown(a)), Documents(t, files, Markdown(b));
    SortMembers(x, BySpecId);
    SortMembers(y, BySpecId);
    forall d ensures d in x <==> d in y {
      DocumentMembers(t, files, Markdown(a), d);
      DocumentMembers(t, files, Markdown(b), d);
    }
    StrictlySortedUnique(Sort(x, BySpecId), Sort(y, BySpecId), BySpecId);
  }

  // ----- Where two share an id it does

  lemma {:induction false} TwinsDiffer<T>(x: T, y: T, xs: seq<T>, le: (T, T) -> bool)
    requires x != y && le(x, y) && le(y, x) && forall z :: z in xs ==> le(x, z) == le(y, z)
    ensures Insert(x, Insert(y, xs, le), le) != Insert(y, Insert(x, xs, le), le)
  {
    if xs == [] || le(x, xs[0]) {
      assert xs != [] ==> xs[0] in xs;
      assert Insert(x, Insert(y, xs, le), le)[0] == x && Insert(y, Insert(x, xs, le), le)[0] == y;
    } else {
      assert xs[0] in xs;
      TwinsDiffer(x, y, xs[1..], le);
      var a, b := Insert(y, xs, le), Insert(x, xs, le);
      assert a[1..] == Insert(y, xs[1..], le) && b[1..] == Insert(x, xs[1..], le);
      assert Insert(x, a, le)[1..] == Insert(x, a[1..], le) && Insert(y, b, le)[1..] == Insert(y, b[1..], le);
    }
  }

  // Two documents with one id are listed as they come.
  lemma TwoDocuments(x: Document, y: Document)
    requires x != y && x.front.specId == y.front.specId
    ensures Sort([x, y], BySpecId) == [x, y] && Sort([y, x], BySpecId) == [y, x]
  {
    assert [x, y] == [x] + ([y] + []) && [y, x] == [y] + ([x] + []);
    SortTwo(x, y, [], BySpecId);
    SortTwo(y, x, [], BySpecId);
  }

  lemma {:induction false} MarkdownFirst(p: Path, rest: seq<Path>)
    requires IsMarkdown(p)
    ensures Markdown([p] + rest) == [p] + Markdown(rest)
  {
    var paths := [p] + rest;
    if rest == [] {
      assert paths == [p] && paths[..0] == [];
    } else {
      assert paths[..|paths| - 1] == [p] + rest[..|rest| - 1];
      MarkdownFirst(p, rest[..|rest| - 1]);
    }
  }

  lemma DocumentsFirst(t: Tools, files: Files, p: Path, rest: seq<Path>)
    requires Described(t, files, [p] + rest)
    ensures p in files && t.frontmatter(files[p]).Some? && Described(t, files, rest)
    ensures Documents(t, files, [p] + rest) == [DocumentOf(t, files, p)] + Documents(t, files, rest)
  {
    assert p in [p] + rest && forall q :: q in rest ==> q in [p] + rest;
  }

  lemma ListOfTwo(t: Tools, files: Files, p: Path, q: Path, rest: seq<Path>)
    requires IsMarkdown(p) && IsMarkdown(q) && Described(t, files, Markdown([p, q] + rest))
    ensures Described(t, files, Markdown(rest))
    ensures p in files && t.frontmatter(files[p]).Some? && q in files && t.frontmatter(files[q]).Some?
    ensures DocumentList(t, files, [p, q] + rest)
            == Insert(DocumentOf(t, files, p), Insert(DocumentOf(t, files, q), DocumentList(t, files, rest), BySpecId), BySpecId)
  {
    assert [p, q] + rest == [p] + ([q] + rest);
    MarkdownFirst(p, [q] + rest);
    MarkdownFirst(q, rest);
    DocumentsFirst(t, files, p, [q] + Markdown(rest));
    DocumentsFirst(t, files, q, Markdown(rest));
    SortTwo(DocumentOf(t, files, p), DocumentOf(t, files, q), Documents(t, files, Markdown(rest)), BySpecId);
  }

  lemma SortTwo<T>(x: T, y: T, xs: seq<T>, le: (T, T) -> bool)
    ensures Sort([x] + ([y] + xs), le) == Insert(x, Insert(y, Sort(xs, le), le), le)
  {
    assert ([x] + ([y] + xs))[1..] == [y] + xs && ([y] + xs)[1..] == xs;
  }

  // Two walks that differ only in which of the twins comes first.
  lemma TwinOrders(t: Tools, files: Files, paths: seq<Path>, p: Path, q: Path) returns (a: seq<Path>, b: seq<Path>)
    requires Described(t, files, Markdown(paths))
    requires p in paths && q in paths && p != q && IsMarkdown(p) && IsMarkdown(q) && SharesId(t, files, p, q)
    ensures Enumerates(a, paths) && Enumerates(b, paths)
    ensures Described(t, files, Markdown(a)) && Described(t, files, Markdown(b))
    ensures DocumentList(t, files, a) != DocumentList(t, files, b)
  {
    var rest := Enumerated(Elements(paths) - {p, q});
    a, b := [p, q] + rest, [q, p] + rest;
    TwoFirst(p, q, rest);
    TwoFirst(q, p, rest);
    assert Elements(a) == {p, q} + Elements(rest) && Elements(b) == {p, q} + Elements(rest);
    assert Elements(a) == Elements(paths) == Elements(b);
    SameMarkdown(a, paths);
    SameMarkdown(b, paths);
    ListOfTwo(t, files, p, q, rest);
    ListOfTwo(t, files, q, p, rest);
    TwinsDiffer(DocumentOf(t, files, p), DocumentOf(t, files, q), DocumentList(t, files, rest), BySpecId);
  }

  lemma TwoFirst(p: Path, q: Path, rest: seq<Path>)
    requires p != q && Distinct(rest) && p !in Elements(rest) && q !in Elements(rest)
    ensures Distinct([p, q] + rest)
  {
  }

  // ----- Exactly

  // The document list is the same for every walk exactly when no two documents share an id.
  lemma DocumentsOnceExactly(t: Tools, files: Files, paths: seq<Path>)
    requires Described(t, files, Markdown(paths))
    ensures (forall a, b :: Enumerates(a, paths) && Enumerates(b, paths) ==>
               Described(t, files, Markdown(a)) && Described(t, files, Markdown(b))
               && DocumentList(t, files, a) == DocumentList(t, files, b))
            <==> DistinctIds(t, files, Elements(paths))
  {
    if DistinctIds(t, files, Elements(paths)) {
      forall a, b | Enumerates(a, paths) && Enumerates(b, paths)
        ensures Described(t, files, Markdown(a)) && Described(t, files, Markdown(b))
                && DocumentList(t, files, a) == DocumentList(t, files, b)
      {
        SameMarkdown(a, paths);
        DocumentsOnce(t, files, a, b);
      }
    } else {
      var p, q :| p in Elements(paths) && q in Elements(paths) && IsMarkdown(p) && IsMarkdown(q) && p != q
                  && SharesId(t, files, p, q);
      var a, b := TwinOrders(t, files, paths, p, q);
    }
  }

  lemma SettledAnyOrder(t: Tools, files: Files, paths: seq<Path>, a: seq<Path>, b: seq<Path>)
    requires Settled(t, files, a) && Enumerates(a, paths) && Enumerates(b, paths)
    requires DistinctIds(t, files, Elements(paths))
    ensures Settled(t, files, b)
  {
    assert Right(RecipeOf(t, a), files, SpecManifest);
    DocumentsOnce(t, files, a, b);
    forall p | 0 <= Rank(p) < WRITES ensures Right(RecipeOf(t, b), files, p) {
      assert Right(RecipeOf(t, a), files, p);
      SameContent(t, files, a, b, p);
    }
  }

  lemma SameContent(t: Tools, files: Files, a: seq<Path>, b: seq<Path>, p: Path)
    requires Described(t, files, Markdown(a)) && Described(t, files, Markdown(b))
    requires DocumentList(t, files, a) == DocumentList(t, files, b)
    ensures ContentOf(t, p, files, a) == ContentOf(t, p, files, b)
  {
  }

  // After a run that changed nothing the document list is the one of its walk.
  lemma WalkShows(t: Tools, files: Files, order: seq<Path>)
    requires Run(t, files, order) == Some(files)
    ensures SpecManifest in files && files[SpecManifest].SpecFile? && Described(t, files, Markdown(order))
    ensures files[SpecManifest].documents == DocumentList(t, files, order)
  {
    var g, k := RecipeOf(t, order), Rank(SpecManifest) + 1;
    RecipeSteady(t, order);
    RunUnchanged(g, files, WRITES, k);
    RunUnchanged(g, files, WRITES, k - 1);
    var before, p, c := LastWrite(g, files, k);
    RankUnique(p, SpecManifest);
    assert before == files && c == files[p];
  }

  // A second run, however it walks, finds nothing to write exactly when no two documents of
  // the base share an id.
  lemma SecondRunExactly(t: Tools, files: Files, paths: seq<Path>, order: seq<Path>)
    requires PathsOf(files, Base) == Some(paths) && Enumerates(order, paths) && Settled(t, files, order)
    ensures (forall again :: Enumerates(again, paths) ==> Run(t, files, again) == Some(files))
            <==> DistinctIds(t, files, Elements(paths))
  {
    if DistinctIds(t, files, Elements(paths)) {
      forall again | Enumerates(again, paths) ensures Run(t, files, again) == Some(files) {
        SettledAnyOrder(t, files, paths, order, again);
        RunSettled(RecipeOf(t, again), files, WRITES);
      }
    } else {
      assert Right(RecipeOf(t, order), files, SpecManifest);
      SameMarkdown(order, paths);
      var p, q :| p in Elements(paths) && q in Elements(paths) && IsMarkdown(p) && IsMarkdown(q) && p != q
                  && SharesId(t, files, p, q);
      var a, b := TwinOrders(t, files, paths, p, q);
      if Run(t, files, a) == Some(files) && Run(t, files, b) == Some(files) {
        WalkShows(t, files, a);
        WalkShows(t, files, b);
      }
    }
  }
}
