/** A comparison without a breaking finding is sound: the candidate schema accepts everything
    that the baseline schema accepts. */
module SchemaSoundness {
  import opened Json
  import opened Seqs
  import opened Notices
  import opened Findings
  import opened SchemaDiff
  import opened Schema

  // ---- The report and the verdict without paths

  lemma KeywordCompatible(k: Keyword, b: Fields, c: Fields, path: Path)
    ensures Compatible(KeywordDiff(k, b, c, path)) <==> KeywordVerdict(k, At(b, k), At(c, k)).Ok()
  {
    var v := KeywordVerdict(k, At(b, k), At(c, k));
    if v.Breaks? {
      assert Finding(Breaking, v.notice, Under(path, k.Name())) in KeywordDiff(k, b, c, path);
    }
  }

  lemma KeywordsCompatible(b: Fields, c: Fields, path: Path)
    ensures Compatible(KeywordsDiff(b, c, path)) <==> forall k: Keyword :: KeywordVerdict(k, At(b, k), At(c, k)).Ok()
  {
    forall k: Keyword ensures Compatible(KeywordDiff(k, b, c, path)) <==> KeywordVerdict(k, At(b, k), At(c, k)).Ok() {
      KeywordCompatible(k, b, c, path);
    }
    forall k: Keyword ensures KeywordDiff(k, b, c, path) <= KeywordsDiff(b, c, path) {
    }
  }

  lemma LocallyCompatible(b: Fields, c: Fields, path: Path)
    ensures Compatible(LocalDiff(b, c, path)) <==> LocallyOk(b, c)
  {
    NamesCompatible(Required(c), Required(b), p => NowRequired(p, path), p => NowOptional(p, path));
    NamesCompatible(Properties(b).Keys, Properties(c).Keys, p => PropertyRemoved(p, path), p => PropertyAdded(p, path));
    KeywordsCompatible(b, c, path);
  }

  /** The report of a comparison has no break exactly when the path-free verdict says so. */
  lemma {:induction false} CompatibleIffNonBreaking(b: Json, c: Json, path: Path)
    ensures Compatible(Diff(b, c, path)) <==> NonBreaking(b, c)
    decreases b
  {
    if b.Obj? && c.Obj? {
      LocallyCompatible(b.fields, c.fields, path);
      forall ch | ch in Children(b, c)
        ensures Compatible(Diff(ch.base, ch.cand, ch.step.From(path))) <==> NonBreaking(ch.base, ch.cand)
      {
        CompatibleIffNonBreaking(ch.base, ch.cand, ch.step.From(path));
      }
      if Compatible(Diff(b, c, path)) {
        assert LocalDiff(b.fields, c.fields, path) <= Diff(b, c, path);
        forall ch | ch in Children(b, c) ensures NonBreaking(ch.base, ch.cand) {
          assert Diff(ch.base, ch.cand, ch.step.From(path)) <= Diff(b, c, path);
        }
      }
    } else if b != c {
      assert Finding(Breaking, ShapeChanged, path) in Diff(b, c, path);
    }
  }

  // ---- References whose meaning may grow

  /** `J` gives references at least the meaning that `I` does, and agrees on the formats. */
  ghost predicate Below(I: Interp, J: Interp) {
    I.format == J.format && forall r, v :: I.reference(r, v) ==> J.reference(r, v)
  }

  function BranchSet(s: Json, k: Keyword): (r: set<Json>)
    requires s.Obj?
    ensures forall t :: t in r ==> t < s
  {
    match Branches(s, k)
    case Some(xs) => Elements(xs)
    case None => {}
  }

  function Singleton(j: Option<Json>): set<Json> {
    if j.Some? then {j.value} else {}
  }

  /** The sub-schemas in positions where accepting more makes the whole accept more. */
  function Positives(s: Json): (r: set<Json>)
    ensures forall t :: t in r ==> t < s
  {
    if s.Obj? then
      assert Properties(s.fields) != map[] ==> Get(s.fields, "properties").Some?;
      (set p | p in Properties(s.fields).Keys :: Properties(s.fields)[p])
      + Singleton(At(s.fields, Items)) + Singleton(At(s.fields, Additional))
      + BranchSet(s, AnyOf) + BranchSet(s, AllOf)
    else {}
  }

  /** The sub-schemas whose meaning must not move: under `not` and in `oneOf`. */
  function Exacts(s: Json): (r: set<Json>)
    ensures forall t :: t in r ==> t < s
  {
    if s.Obj? then BranchSet(s, OneOf) + Singleton(At(s.fields, Not)) else {}
  }

  predicate RefFree(s: Json)
    decreases s
  {
    (s.Obj? ==> At(s.fields, Ref).None?) && forall t :: t in Positives(s) + Exacts(s) ==> RefFree(t)
  }

  /** No reference under `not` or in a `oneOf` branch. */
  predicate PositiveRefs(s: Json)
    decreases s
  {
    (forall t :: t in Positives(s) ==> PositiveRefs(t)) && forall t :: t in Exacts(s) ==> RefFree(t)
  }

  lemma {:induction false} RefFreeMeaning(s: Json, v: Json, I: Interp, J: Interp)
    requires RefFree(s) && I.format == J.format
    ensures Accepts(s, v, I) == Accepts(s, v, J)
    decreases s
  {
    if s.Obj? {
      forall t, w | t in Positives(s) + Exacts(s) ensures Accepts(t, w, I) == Accepts(t, w, J) {
        RefFreeMeaning(t, w, I, J);
      }
      SubSchemasGrow(s, v, I, J);
      SubSchemasGrow(s, v, J, I);
      FlatAgrees(s.fields, v, I, J);
    }
  }

  lemma FlatAgrees(o: Fields, v: Json, I: Interp, J: Interp)
    requires At(o, Ref).None? && I.format == J.format
    ensures FlatOk(o, v, I) == FlatOk(o, v, J)
  {
    forall k: Keyword | At(o, k).Some?
      ensures FlatKeywordOk(k, At(o, k).value, v, I) == FlatKeywordOk(k, At(o, k).value, v, J)
    {
    }
  }

  lemma MemberSchemaPositive(s: Json, k: string)
    requires s.Obj?
    ensures MemberSchema(s, k).Bool? || MemberSchema(s, k) in Positives(s)
  {
  }

  /** Growing the references grows a schema whose references are all positive. */
  lemma {:induction false} PositiveRefsGrow(s: Json, v: Json, I: Interp, J: Interp)
    requires PositiveRefs(s) && Below(I, J) && Accepts(s, v, I)
    ensures Accepts(s, v, J)
    decreases s
  {
    if s.Obj? {
      forall t, w | t in Positives(s) && Accepts(t, w, I) ensures Accepts(t, w, J) {
        PositiveRefsGrow(t, w, I, J);
      }
      forall t, w | t in Exacts(s) ensures Accepts(t, w, I) == Accepts(t, w, J) {
        RefFreeMeaning(t, w, I, J);
      }
      SubSchemasGrow(s, v, I, J);
      FlatGrows(s.fields, v, I, J);
    }
  }

  lemma FlatGrows(o: Fields, v: Json, I: Interp, J: Interp)
    requires Below(I, J) && FlatOk(o, v, I)
    ensures FlatOk(o, v, J)
  {
    forall k: Keyword | At(o, k).Some? ensures FlatKeywordOk(k, At(o, k).value, v, J) {
      assert FlatKeywordOk(k, At(o, k).value, v, I);
    }
  }

  /** The step of the two inductions: a schema grows with its sub-schemas. */
  lemma SubSchemasGrow(s: Json, v: Json, I: Interp, J: Interp)
    requires s.Obj?
    requires forall t, w :: t in Positives(s) && Accepts(t, w, I) ==> Accepts(t, w, J)
    requires forall t, w :: t in Exacts(s) ==> Accepts(t, w, I) == Accepts(t, w, J)
    ensures AnyOfOk(s, v, I) ==> AnyOfOk(s, v, J)
    ensures OneOfOk(s, v, I) ==> OneOfOk(s, v, J)
    ensures AllOfOk(s, v, I) ==> AllOfOk(s, v, J)
    ensures NotOk(s, v, I) ==> NotOk(s, v, J)
    ensures ItemsOk(s, v, I) ==> ItemsOk(s, v, J)
    ensures MembersOk(s, v, I) ==> MembersOk(s, v, J)
  {
    if AnyOfOk(s, v, I) { AnyOfGrows(s, v, I, J); }
    if AllOfOk(s, v, I) { AllOfGrows(s, v, I, J); }
    if OneOfOk(s, v, I) { OneOfGrows(s, v, I, J); }
    forall k, x | MemberOk(s, k, x, I) ensures MemberOk(s, k, x, J) {
      MemberSchemaPositive(s, k);
    }
  }

  lemma AnyOfGrows(s: Json, v: Json, I: Interp, J: Interp)
    requires s.Obj? && AnyOfOk(s, v, I)
    requires forall t :: t in BranchSet(s, AnyOf) && Accepts(t, v, I) ==> Accepts(t, v, J)
    ensures AnyOfOk(s, v, J)
  {
    match Branches(s, AnyOf) {
      case Some(xs) => AnyBranch(xs, xs, v, I, J);
      case None =>
    }
  }

  lemma AllOfGrows(s: Json, v: Json, I: Interp, J: Interp)
    requires s.Obj? && AllOfOk(s, v, I)
    requires forall t :: t in BranchSet(s, AllOf) && Accepts(t, v, I) ==> Accepts(t, v, J)
    ensures AllOfOk(s, v, J)
  {
    match Branches(s, AllOf) {
      case Some(xs) => AllBranches(xs, xs, v, I, J);
      case None =>
    }
  }

  lemma OneOfGrows(s: Json, v: Json, I: Interp, J: Interp)
    requires s.Obj? && OneOfOk(s, v, I)
    requires forall t :: t in BranchSet(s, OneOf) ==> Accepts(t, v, I) == Accepts(t, v, J)
    ensures OneOfOk(s, v, J)
  {
    match Branches(s, OneOf) {
      case Some(xs) => OneBranch(xs, xs, v, I, J);
      case None =>
    }
  }

  lemma AnyBranch(xs: seq<Json>, ys: seq<Json>, v: Json, I: Interp, J: Interp)
    requires exists i :: 0 <= i < |xs| && Accepts(xs[i], v, I)
    requires Elements(xs) <= Elements(ys)
    requires forall t :: t in Elements(xs) && Accepts(t, v, I) ==> Accepts(t, v, J)
    ensures exists i :: 0 <= i < |ys| && Accepts(ys[i], v, J)
  {
    var i :| 0 <= i < |xs| && Accepts(xs[i], v, I);
    assert xs[i] in Elements(ys);
  }

  lemma AllBranches(xs: seq<Json>, ys: seq<Json>, v: Json, I: Interp, J: Interp)
    requires forall i :: 0 <= i < |xs| ==> Accepts(xs[i], v, I)
    requires Elements(ys) <= Elements(xs)
    requires forall t :: t in Elements(xs) && Accepts(t, v, I) ==> Accepts(t, v, J)
    ensures forall i :: 0 <= i < |ys| ==> Accepts(ys[i], v, J)
  {
    forall i | 0 <= i < |ys| ensures Accepts(ys[i], v, J) {
      assert ys[i] in Elements(ys);
      assert ys[i] in Elements(xs);
    }
  }

  /** Exactly one branch of the list accepts the value. */
  ghost predicate One(xs: seq<Json>, v: Json, I: Interp) {
    exists i :: 0 <= i < |xs| && Accepts(xs[i], v, I) && forall j :: 0 <= j < |xs| && Accepts(xs[j], v, I) ==> j == i
  }

  lemma OneOfIs(s: Json, xs: seq<Json>, v: Json, I: Interp)
    requires s.Obj? && Branches(s, OneOf) == Some(xs)
    ensures OneOfOk(s, v, I) <==> One(xs, v, I)
  {
  }

  /** The same alternatives, none repeated in the second list or the lists equal. */
  lemma OneBranch(xs: seq<Json>, ys: seq<Json>, v: Json, I: Interp, J: Interp)
    requires One(xs, v, I) && Elements(xs) == Elements(ys) && (Distinct(ys) || xs == ys)
    requires forall t :: t in Elements(xs) ==> Accepts(t, v, I) == Accepts(t, v, J)
    ensures One(ys, v, J)
  {
    var i :| 0 <= i < |xs| && Accepts(xs[i], v, I) && forall j :: 0 <= j < |xs| && Accepts(xs[j], v, I) ==> j == i;
    assert xs[i] in Elements(ys);
    var k :| 0 <= k < |ys| && ys[k] == xs[i] && (xs == ys ==> k == i);
    forall j | 0 <= j < |ys| && Accepts(ys[j], v, J) ensures j == k {
      assert ys[j] in Elements(ys);
      assert ys[j] in Elements(xs);
    }
  }

  // ---- The comparison

  /** What must hold of a pair beside the absence of a break; a caller can check it:
      properties are only added to closed objects, and `oneOf` is dropped or keeps its
      alternatives, none of them repeated. */
  predicate LocallyGuarded(b: Fields, c: Fields) {
    && (Properties(c).Keys <= Properties(b).Keys || Closed(At(b, Additional)))
    && (var was, now := At(b, OneOf), At(c, OneOf);
        now.Some? && now.value.Arr? && was.Some? && was.value.Arr? ==>
          Elements(now.value.items) <= Elements(was.value.items) && Distinct(now.value.items))
  }

  predicate Guarded(b: Json, c: Json)
    decreases b
  {
    (b.Obj? && c.Obj? ==> LocallyGuarded(b.fields, c.fields))
    && forall ch :: ch in Children(b, c) ==> Guarded(ch.base, ch.cand)
  }

  /** Either references mean the same on both sides, or they grow and occur positively. */
  ghost predicate Lifts(s: Json, I: Interp, J: Interp) {
    I == J || (Below(I, J) && PositiveRefs(s))
  }

  lemma LiftsSame(s: Json, v: Json, I: Interp, J: Interp)
    requires Lifts(s, I, J) && Accepts(s, v, I)
    ensures Accepts(s, v, J)
  {
    if I != J { PositiveRefsGrow(s, v, I, J); }
  }

  lemma ExactsSame(s: Json, t: Json, v: Json, I: Interp, J: Interp)
    requires Lifts(s, I, J) && t in Exacts(s)
    ensures Accepts(t, v, I) == Accepts(t, v, J)
  {
    if I != J { RefFreeMeaning(t, v, I, J); }
  }

  lemma FlatSound(b: Fields, c: Fields, v: Json, I: Interp, J: Interp)
    requires LocallyOk(b, c) && Below(I, J) && FlatOk(b, v, I)
    ensures FlatOk(c, v, J)
  {
    RequiredSound(b, c, v);
    forall k: Keyword | At(c, k).Some? ensures FlatKeywordOk(k, At(c, k).value, v, J) {
      assert KeywordVerdict(k, At(b, k), At(c, k)).Ok();
      assert At(b, k).Some? ==> FlatKeywordOk(k, At(b, k).value, v, I);
      FlatKeywordSound(k, At(b, k), At(c, k), v, I, J);
    }
  }

  lemma RequiredSound(b: Fields, c: Fields, v: Json)
    requires Required(c) <= Required(b) && RequiredOk(b, v)
    ensures RequiredOk(c, v)
  {
    match Get(c, "required") {
      case Some(Arr(xs)) =>
        forall i | v.Obj? && 0 <= i < |xs| && xs[i].Str? ensures xs[i].s in v.fields {
          assert xs[i].s in Required(c);
        }
      case _ =>
    }
  }

  lemma FlatKeywordSound(k: Keyword, b: Option<Json>, c: Option<Json>, v: Json, I: Interp, J: Interp)
    requires KeywordVerdict(k, b, c).Ok() && Below(I, J) && c.Some?
    requires b.Some? ==> FlatKeywordOk(k, b.value, v, I)
    ensures FlatKeywordOk(k, c.value, v, J)
  {
    match k {
      case Type =>
        if SchemaTypes(c).Some? {
          var name :| name in SchemaTypes(b).value && HasType(v, name);
          assert name in SchemaTypes(c).value;
        }
      case Enum =>
        if c.value.Arr? {
          var e :| e in CanonicalArraySet(b).value && Same(e, v);
          assert e in CanonicalArraySet(c).value;
        }
      case _ =>
    }
  }

  lemma CompositionsSound(b: Json, c: Json, v: Json, I: Interp, J: Interp)
    requires b.Obj? && c.Obj? && LocallyOk(b.fields, c.fields) && LocallyGuarded(b.fields, c.fields) && Lifts(b, I, J)
    ensures AnyOfOk(b, v, I) ==> AnyOfOk(c, v, J)
    ensures OneOfOk(b, v, I) ==> OneOfOk(c, v, J)
    ensures AllOfOk(b, v, I) ==> AllOfOk(c, v, J)
    ensures NotOk(b, v, I) ==> NotOk(c, v, J)
  {
    assert KeywordVerdict(AnyOf, At(b.fields, AnyOf), At(c.fields, AnyOf)).Ok();
    assert KeywordVerdict(OneOf, At(b.fields, OneOf), At(c.fields, OneOf)).Ok();
    assert KeywordVerdict(AllOf, At(b.fields, AllOf), At(c.fields, AllOf)).Ok();
    assert KeywordVerdict(Not, At(b.fields, Not), At(c.fields, Not)).Ok();
    if AnyOfOk(b, v, I) { AnyOfSound(b, c, v, I, J); }
    if OneOfOk(b, v, I) { OneOfSound(b, c, v, I, J); }
    if AllOfOk(b, v, I) { AllOfSound(b, c, v, I, J); }
    if NotOk(b, v, I) { NotSound(b, c, v, I, J); }
  }

  lemma AnyOfSound(b: Json, c: Json, v: Json, I: Interp, J: Interp)
    requires b.Obj? && c.Obj? && Lifts(b, I, J) && AnyOfOk(b, v, I)
    requires KeywordVerdict(AnyOf, At(b.fields, AnyOf), At(c.fields, AnyOf)).Ok()
    ensures AnyOfOk(c, v, J)
  {
    var x, y := Branches(b, AnyOf), Branches(c, AnyOf);
    if y.Some? {
      forall t | t in Elements(x.value) && Accepts(t, v, I) ensures Accepts(t, v, J) {
        assert t in Positives(b);
        LiftsSame(t, v, I, J);
      }
      AnyBranch(x.value, y.value, v, I, J);
    }
  }

  lemma AllOfSound(b: Json, c: Json, v: Json, I: Interp, J: Interp)
    requires b.Obj? && c.Obj? && Lifts(b, I, J) && AllOfOk(b, v, I)
    requires KeywordVerdict(AllOf, At(b.fields, AllOf), At(c.fields, AllOf)).Ok()
    ensures AllOfOk(c, v, J)
  {
    var x, y := Branches(b, AllOf), Branches(c, AllOf);
    if y.Some? {
      forall t | t in Elements(x.value) && Accepts(t, v, I) ensures Accepts(t, v, J) {
        assert t in Positives(b);
        LiftsSame(t, v, I, J);
      }
      AllBranches(x.value, y.value, v, I, J);
    }
  }

  /** Where both sides have alternatives, they are the same ones and not repeated. */
  lemma OneOfKept(b: Json, c: Json)
    requires b.Obj? && c.Obj? && LocallyGuarded(b.fields, c.fields) && Branches(c, OneOf).Some?
    requires KeywordVerdict(OneOf, At(b.fields, OneOf), At(c.fields, OneOf)).Ok()
    ensures Branches(b, OneOf).Some?
    ensures Elements(Branches(b, OneOf).value) == Elements(Branches(c, OneOf).value) && Distinct(Branches(c, OneOf).value)
  {
  }

  lemma OneOfExact(b: Json, v: Json, I: Interp, J: Interp)
    requires b.Obj? && Lifts(b, I, J) && Branches(b, OneOf).Some?
    ensures forall t :: t in Elements(Branches(b, OneOf).value) ==> Accepts(t, v, I) == Accepts(t, v, J)
  {
    forall t | t in Elements(Branches(b, OneOf).value) ensures Accepts(t, v, I) == Accepts(t, v, J) {
      ExactsSame(b, t, v, I, J);
    }
  }

  lemma OneOfCarries(b: Json, c: Json, xs: seq<Json>, ys: seq<Json>, v: Json, I: Interp, J: Interp)
    requires b.Obj? && c.Obj? && Branches(b, OneOf) == Some(xs) && Branches(c, OneOf) == Some(ys)
    requires Elements(xs) == Elements(ys) && Distinct(ys) && OneOfOk(b, v, I)
    requires forall t :: t in Elements(xs) ==> Accepts(t, v, I) == Accepts(t, v, J)
    ensures OneOfOk(c, v, J)
  {
    OneOfIs(b, xs, v, I);
    OneBranch(xs, ys, v, I, J);
    OneOfIs(c, ys, v, J);
  }

  lemma OneOfSound(b: Json, c: Json, v: Json, I: Interp, J: Interp)
    requires b.Obj? && c.Obj? && Lifts(b, I, J) && LocallyGuarded(b.fields, c.fields) && OneOfOk(b, v, I)
    requires KeywordVerdict(OneOf, At(b.fields, OneOf), At(c.fields, OneOf)).Ok()
    ensures OneOfOk(c, v, J)
  {
    if Branches(c, OneOf).Some? {
      OneOfKept(b, c);
      OneOfExact(b, v, I, J);
      OneOfCarries(b, c, Branches(b, OneOf).value, Branches(c, OneOf).value, v, I, J);
    }
  }

  lemma NotSound(b: Json, c: Json, v: Json, I: Interp, J: Interp)
    requires b.Obj? && c.Obj? && Lifts(b, I, J) && NotOk(b, v, I)
    requires KeywordVerdict(Not, At(b.fields, Not), At(c.fields, Not)).Ok()
    ensures NotOk(c, v, J)
  {
    if At(c.fields, Not).Some? {
      ExactsSame(b, At(b.fields, Not).value, v, I, J);
    }
  }

  /** Everything the sub-schemas need for the induction. */
  ghost predicate ChildrenSound(b: Json, c: Json, I: Interp, J: Interp) {
    forall ch, w :: ch in Children(b, c) && Accepts(ch.base, w, I) ==> Accepts(ch.cand, w, J)
  }

  lemma ItemsSound(b: Json, c: Json, v: Json, I: Interp, J: Interp)
    requires b.Obj? && c.Obj? && ChildrenSound(b, c, I, J) && LocallyOk(b.fields, c.fields)
    ensures ItemsOk(b, v, I) ==> ItemsOk(c, v, J)
  {
    var bi, ci := At(b.fields, Items), At(c.fields, Items);
    assert KeywordVerdict(Items, bi, ci).Ok();
    if ci.Some? {
      assert Child(bi.value, ci.value, IntoItems) in Children(b, c);
    }
  }

  lemma MembersSound(b: Json, c: Json, v: Json, I: Interp, J: Interp)
    requires b.Obj? && c.Obj? && ChildrenSound(b, c, I, J) && LocallyOk(b.fields, c.fields)
    requires LocallyGuarded(b.fields, c.fields)
    ensures MembersOk(b, v, I) ==> MembersOk(c, v, J)
  {
    assert KeywordVerdict(Additional, At(b.fields, Additional), At(c.fields, Additional)).Ok();
    if v.Obj? && MembersOk(b, v, I) {
      forall k | k in v.fields ensures MemberOk(c, k, v.fields[k], J) {
        if k in Properties(b.fields) {
          PropertySound(b, c, k, v.fields[k], I, J);
        } else if k !in Properties(c.fields) {
          AdditionalSound(b, c, k, v.fields[k], I, J);
        } else {
          ClosedRejects(b, k, v.fields[k], I);
        }
      }
    }
  }

  lemma ClosedRejects(s: Json, k: string, x: Json, I: Interp)
    requires s.Obj? && Closed(At(s.fields, Additional)) && k !in Properties(s.fields)
    ensures !MemberOk(s, k, x, I)
  {
  }

  lemma PropertySound(b: Json, c: Json, k: string, x: Json, I: Interp, J: Interp)
    requires b.Obj? && c.Obj? && k in Properties(b.fields) && k in Properties(c.fields)
    requires ChildrenSound(b, c, I, J) && MemberOk(b, k, x, I)
    ensures MemberOk(c, k, x, J)
  {
    var ch := PropertyChild(b.fields, c.fields, k);
    assert ch in Children(b, c);
    assert Accepts(ch.base, x, I);
    assert Accepts(ch.cand, x, J);
  }

  lemma AdditionalSound(b: Json, c: Json, k: string, x: Json, I: Interp, J: Interp)
    requires b.Obj? && c.Obj? && ChildrenSound(b, c, I, J)
    requires k !in Properties(b.fields) && k !in Properties(c.fields)
    requires AdditionalVerdict(At(b.fields, Additional), At(c.fields, Additional)).Ok()
    requires MemberOk(b, k, x, I)
    ensures MemberOk(c, k, x, J)
  {
    var was, now := At(b.fields, Additional), At(c.fields, Additional);
    if IsObject(was) && IsObject(now) {
      var ch := Child(was.value, now.value, IntoAdditional);
      assert ch in Children(b, c);
      assert Accepts(ch.base, x, I);
      assert Accepts(ch.cand, x, J);
    }
  }

  lemma LiftsChildren(b: Json, c: Json, I: Interp, J: Interp)
    requires Lifts(b, I, J)
    ensures forall ch :: ch in Children(b, c) ==> Lifts(ch.base, I, J)
  {
    forall ch | ch in Children(b, c) ensures Lifts(ch.base, I, J) {
      assert ch.base in Positives(b);
    }
  }

  lemma {:induction false} NonBreakingSound(b: Json, c: Json, v: Json, I: Interp, J: Interp)
    requires NonBreaking(b, c) && Guarded(b, c) && Below(I, J) && Lifts(b, I, J) && Accepts(b, v, I)
    ensures Accepts(c, v, J)
    decreases b
  {
    if b.Obj? && c.Obj? {
      LiftsChildren(b, c, I, J);
      forall ch, w | ch in Children(b, c) && Accepts(ch.base, w, I) ensures Accepts(ch.cand, w, J) {
        NonBreakingSound(ch.base, ch.cand, w, I, J);
      }
      FlatSound(b.fields, c.fields, v, I, J);
      CompositionsSound(b, c, v, I, J);
      ItemsSound(b, c, v, I, J);
      MembersSound(b, c, v, I, J);
    } else {
      LiftsSame(b, v, I, J);
    }
  }

  /** Soundness of the report, for all schemas, instances and meanings of references. */
  lemma Sound(b: Json, c: Json, path: Path, I: Interp)
    requires Compatible(Diff(b, c, path)) && Guarded(b, c)
    ensures forall v :: Accepts(b, v, I) ==> Accepts(c, v, I)
  {
    CompatibleIffNonBreaking(b, c, path);
    forall v | Accepts(b, v, I) ensures Accepts(c, v, I) {
      NonBreakingSound(b, c, v, I, I);
    }
  }
}
