/** `compare_schema` as the source runs it: recursively, pushing findings onto a report. */
module SchemaCompare {
  import opened Json
  import opened Seqs
  import opened Notices
  import opened Findings
  import opened SchemaDiff
  import opened Report
  import SchemaSoundness
  import SchemaExact

  /** Two loops, over what is gone and over what is new. */
  method CompareNames<T(!new)>(was: set<T>, now: set<T>, gone: T -> Finding, appeared: T -> Finding, report: Report)
    modifies report
    ensures Elements(report.findings) == old(Elements(report.findings)) + NamesDiff(was, now, gone, appeared)
  {
    PushEach(was - now, gone, report);
    PushEach(now - was, appeared, report);
  }

  method PushEach<T(!new)>(xs: set<T>, say: T -> Finding, report: Report)
    modifies report
    ensures Elements(report.findings) == old(Elements(report.findings)) + set x | x in xs :: say(x)
  {
    var todo, done := xs, {};
    while todo != {}
      invariant todo + done == xs && todo !! done
      invariant Elements(report.findings) == old(Elements(report.findings)) + set x | x in done :: say(x)
      decreases |todo|
    {
      var x :| x in todo;
      report.Push(say(x));
      todo, done := todo - {x}, done + {x};
    }
    assert done == xs;
  }

  method CompareKeyword(k: Keyword, b: Fields, c: Fields, path: Path, report: Report)
    modifies report
    ensures Elements(report.findings) == old(Elements(report.findings)) + KeywordDiff(k, b, c, path)
  {
    match KeywordVerdict(k, At(b, k), At(c, k)) {
      case Silent =>
      case Breaks(notice) => report.Push(Finding(Breaking, notice, Under(path, k.Name())));
      case Adds(notice) => report.Push(Finding(Additive, notice, Under(path, k.Name())));
    }
  }

  function SaidOf(ks: set<Keyword>, b: Fields, c: Fields, path: Path): set<Finding> {
    set k, f | k in ks && f in KeywordDiff(k, b, c, path) :: f
  }

  function AllKeywords(): (ks: set<Keyword>)
    ensures forall k: Keyword :: k in ks
  {
    set k: Keyword | k.LowerBound() || !k.LowerBound()
  }

  lemma SaidAll(b: Fields, c: Fields, path: Path)
    ensures SaidOf(AllKeywords(), b, c, path) == KeywordsDiff(b, c, path)
  {
  }

  method CompareKeywords(ks: set<Keyword>, b: Fields, c: Fields, path: Path, report: Report)
    modifies report
    ensures Elements(report.findings) == old(Elements(report.findings)) + SaidOf(ks, b, c, path)
  {
    var todo, done: set<Keyword> := ks, {};
    while todo != {}
      invariant todo + done == ks
      invariant Elements(report.findings) == old(Elements(report.findings)) + SaidOf(done, b, c, path)
      decreases |todo|
    {
      var k :| k in todo;
      CompareKeyword(k, b, c, path, report);
      SaidMore(done, k, b, c, path);
      todo, done := todo - {k}, done + {k};
    }
    assert done == ks;
  }

  lemma SaidMore(ks: set<Keyword>, k: Keyword, b: Fields, c: Fields, path: Path)
    ensures SaidOf(ks + {k}, b, c, path) == SaidOf(ks, b, c, path) + KeywordDiff(k, b, c, path)
  {
  }

  /** The findings of some pairs of sub-schemas. */
  function ChildrenDiff(chs: set<Child>, path: Path): set<Finding> {
    set ch, f | ch in chs && f in Diff(ch.base, ch.cand, ch.step.From(path)) :: f
  }

  lemma ChildrenMore(chs: set<Child>, ch: Child, path: Path)
    ensures ChildrenDiff(chs + {ch}, path) == ChildrenDiff(chs, path) + Diff(ch.base, ch.cand, ch.step.From(path))
  {
  }

  method CompareSchema(b: Json, c: Json, path: Path, report: Report)
    modifies report
    ensures Elements(report.findings) == old(Elements(report.findings)) + Diff(b, c, path)
    decreases b, 1
  {
    if !b.Obj? || !c.Obj? {
      if b != c { report.Push(Finding(Breaking, ShapeChanged, path)); }
      return;
    }
    CompareLocally(b.fields, c.fields, path, report);
    CompareChildren(b, c, path, report);
    assert Diff(b, c, path) == LocalDiff(b.fields, c.fields, path) + ChildrenDiff(Children(b, c), path);
  }

  method CompareLocally(b: Fields, c: Fields, path: Path, report: Report)
    modifies report
    ensures Elements(report.findings) == old(Elements(report.findings)) + LocalDiff(b, c, path)
  {
    CompareNames(Required(c), Required(b), p => NowRequired(p, path), p => NowOptional(p, path), report);
    CompareNames(Properties(b).Keys, Properties(c).Keys, p => PropertyRemoved(p, path), p => PropertyAdded(p, path), report);
    CompareKeywords(AllKeywords(), b, c, path, report);
    SaidAll(b, c, path);
  }

  method CompareChildren(b: Json, c: Json, path: Path, report: Report)
    modifies report
    ensures Elements(report.findings) == old(Elements(report.findings)) + ChildrenDiff(Children(b, c), path)
    decreases b, 0
  {
    var todo, done := Children(b, c), {};
    while todo != {}
      invariant todo + done == Children(b, c)
      invariant Elements(report.findings) == old(Elements(report.findings)) + ChildrenDiff(done, path)
      decreases |todo|
    {
      var ch :| ch in todo;
      CompareSchema(ch.base, ch.cand, ch.step.From(path), report);
      ChildrenMore(done, ch, path);
      todo, done := todo - {ch}, done + {ch};
    }
    assert done == Children(b, c);
  }

  /** One comparison, start to finish: the lines are the canonical text of the difference. */
  method Compare(b: Json, c: Json, path: Path) returns (lines: seq<Line>)
    ensures Increasing(lines)
    ensures forall fs: seq<Finding> :: Elements(fs) == Diff(b, c, path) ==> lines == Normalized(Rendered(fs))
    ensures (forall l :: l in lines ==> l.change != Breaking) <==> NonBreaking(b, c)
    ensures (forall l :: l in lines ==> l.change != Breaking) <==> SchemaExact.Loosened(b, c)
  {
    var report := new Report();
    CompareSchema(b, c, path, report);
    assert Elements(report.findings) == Diff(b, c, path);
    lines := report.Normalize();
    SchemaSoundness.CompatibleIffNonBreaking(b, c, path);
    SchemaExact.CompatibleExactly(b, c, path);
  }
}
