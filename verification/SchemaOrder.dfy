/** Being free of breaks is a preorder on schemas, and an addition read backwards is a break. */
module SchemaOrder {
  import opened Json
  import opened Notices
  import opened Findings
  import opened SchemaDiff
  import opened SchemaSoundness

  // ---- Reflexivity

  lemma KeywordSame(k: Keyword, w: Option<Json>)
    ensures KeywordVerdict(k, w, w) == Silent
  {
  }

  lemma LocallySilent(o: Fields, path: Path)
    ensures LocalDiff(o, o, path) == {}
  {
    NamesSame(Required(o), p => NowRequired(p, path), p => NowOptional(p, path));
    NamesSame(Properties(o).Keys, p => PropertyRemoved(p, path), p => PropertyAdded(p, path));
    forall k: Keyword ensures KeywordVerdict(k, At(o, k), At(o, k)) == Silent { KeywordSame(k, At(o, k)); }
    assert KeywordsDiff(o, o, path) == {};
  }

  lemma {:induction false} Reflexive(s: Json, path: Path)
    ensures Diff(s, s, path) == {}
    decreases s
  {
    if s.Obj? {
      LocallySilent(s.fields, path);
      forall ch | ch in Children(s, s) ensures Diff(ch.base, ch.cand, ch.step.From(path)) == {} {
        Reflexive(ch.base, ch.step.From(path));
      }
    }
  }

  // ---- Transitivity

  /** Neither a boolean nor a schema object; the parser refuses this unless the node holds `$ref`. */
  predicate Odd(ap: Option<Json>) {
    ap.Some? && !ap.value.Bool? && !ap.value.Obj?
  }

  /** The sub-schemas that a comparison can reach. */
  function Reached(s: Json): (r: set<Json>)
    ensures forall t :: t in r ==> t < s
  {
    if s.Obj? then
      assert Properties(s.fields) != map[] ==> Get(s.fields, "properties").Some?;
      (set p | p in Properties(s.fields).Keys :: Properties(s.fields)[p])
      + Singleton(At(s.fields, Items)) + Singleton(At(s.fields, Additional))
    else {}
  }

  predicate WellTyped(s: Json)
    decreases s
  {
    (s.Obj? ==> !Odd(At(s.fields, Additional))) && forall t :: t in Reached(s) ==> WellTyped(t)
  }

  lemma ChildReached(b: Json, c: Json, ch: Child)
    requires ch in Children(b, c)
    ensures ch.base in Reached(b) && ch.cand in Reached(c)
  {
  }

  /** When `additionalProperties` changes without a break. */
  predicate AdditionalOk(b: Option<Json>, c: Option<Json>) {
    || b == c
    || (Open(b) && Open(c))
    || ((Closed(b) || IsObject(b)) && (Open(c) || IsObject(c)))
    || (b.None? && Odd(c)) || (Odd(b) && c.None?)
  }

  lemma AdditionalTable(b: Option<Json>, c: Option<Json>)
    ensures AdditionalVerdict(b, c).Ok() <==> AdditionalOk(b, c)
  {
  }

  /** The middle schema leaves `additionalProperties` out, and the outer two differ with an
      ill-typed value among them. */
  predicate GapHere(a: Option<Json>, b: Option<Json>, c: Option<Json>) {
    b.None? && a.Some? && c.Some? && a != c && (Odd(a) || Odd(c))
  }

  /** `compare_additional_properties` is transitive in all cases but that one. */
  lemma AdditionalTransitiveExactly(a: Option<Json>, b: Option<Json>, c: Option<Json>)
    requires AdditionalOk(a, b) && AdditionalOk(b, c)
    ensures AdditionalOk(a, c) <==> !GapHere(a, b, c)
  {
  }

  lemma KeywordTransitive(k: Keyword, a: Option<Json>, b: Option<Json>, c: Option<Json>)
    requires KeywordVerdict(k, a, b).Ok() && KeywordVerdict(k, b, c).Ok()
    ensures KeywordVerdict(k, a, c).Ok() <==> !(k == Additional && GapHere(a, b, c))
  {
    if k == Additional {
      AdditionalTable(a, b);
      AdditionalTable(b, c);
      AdditionalTransitiveExactly(a, b, c);
      AdditionalTable(a, c);
    }
  }

  predicate GapAt(a: Fields, b: Fields, c: Fields) {
    GapHere(At(a, Additional), At(b, Additional), At(c, Additional))
  }

  lemma LocallyTransitive(a: Fields, b: Fields, c: Fields)
    requires LocallyOk(a, b) && LocallyOk(b, c)
    ensures LocallyOk(a, c) <==> !GapAt(a, b, c)
  {
    forall k: Keyword ensures KeywordVerdict(k, At(a, k), At(c, k)).Ok() <==> !(k == Additional && GapAt(a, b, c)) {
      assert KeywordVerdict(k, At(a, k), At(b, k)).Ok() && KeywordVerdict(k, At(b, k), At(c, k)).Ok();
      KeywordTransitive(k, At(a, k), At(b, k), At(c, k));
    }
  }

  /** A sub-schema that the outer comparison reaches is there in the middle schema too. */
  lemma MiddleChild(a: Json, b: Json, c: Json, ch: Child) returns (m: Json)
    requires a.Obj? && b.Obj? && c.Obj? && ch in Children(a, c)
    requires LocallyOk(a.fields, b.fields) && LocallyOk(b.fields, c.fields)
    ensures Child(ch.base, m, ch.step) in Children(a, b) && Child(m, ch.cand, ch.step) in Children(b, c)
  {
    assert KeywordVerdict(Items, At(a.fields, Items), At(b.fields, Items)).Ok();
    assert KeywordVerdict(Items, At(b.fields, Items), At(c.fields, Items)).Ok();
    assert KeywordVerdict(Additional, At(a.fields, Additional), At(b.fields, Additional)).Ok();
    assert KeywordVerdict(Additional, At(b.fields, Additional), At(c.fields, Additional)).Ok();
    match ch.step {
      case IntoProperty(p) =>
        m := Properties(b.fields)[p];
        assert PropertyChild(a.fields, b.fields, p) in Children(a, b);
        assert PropertyChild(b.fields, c.fields, p) in Children(b, c);
      case IntoItems =>
        m := At(b.fields, Items).value;
      case IntoAdditional =>
        m := At(b.fields, Additional).value;
    }
  }

  /** The same place below three schemas. */
  predicate Aligned(a: Json, b: Json, c: Json, ab: Child, bc: Child) {
    && ab in Children(a, b) && bc in Children(b, c)
    && ab.cand == bc.base && ab.step == bc.step && Child(ab.base, bc.cand, ab.step) in Children(a, c)
  }

  /** A gap in the outermost schemas or at the same place below all three. */
  ghost predicate Gap(a: Json, b: Json, c: Json)
    decreases a
  {
    && a.Obj? && b.Obj? && c.Obj?
    && (|| GapAt(a.fields, b.fields, c.fields)
        || exists ab, bc :: Aligned(a, b, c, ab, bc) && Gap(ab.base, ab.cand, bc.cand))
  }

  /** Two changes without a break compose to one exactly when there is no gap. */
  lemma {:induction false} NonBreakingTransitive(a: Json, b: Json, c: Json)
    requires NonBreaking(a, b) && NonBreaking(b, c)
    ensures NonBreaking(a, c) <==> !Gap(a, b, c)
    decreases a
  {
    if a.Obj? && b.Obj? && c.Obj? {
      LocallyTransitive(a.fields, b.fields, c.fields);
      forall ab, bc | Aligned(a, b, c, ab, bc)
        ensures NonBreaking(ab.base, bc.cand) <==> !Gap(ab.base, ab.cand, bc.cand)
      {
        NonBreakingTransitive(ab.base, ab.cand, bc.cand);
      }
      if Gap(a, b, c) {
        GapBreaks(a, b, c);
      } else {
        NoGapKeeps(a, b, c);
      }
    }
  }

  lemma GapBreaks(a: Json, b: Json, c: Json)
    requires Gap(a, b, c) && LocallyOk(a.fields, b.fields) && LocallyOk(b.fields, c.fields)
    requires forall ab, bc :: Aligned(a, b, c, ab, bc) ==>
               (NonBreaking(ab.base, bc.cand) <==> !Gap(ab.base, ab.cand, bc.cand))
    ensures !NonBreaking(a, c)
  {
    LocallyTransitive(a.fields, b.fields, c.fields);
    if !GapAt(a.fields, b.fields, c.fields) {
      var ab, bc :| Aligned(a, b, c, ab, bc) && Gap(ab.base, ab.cand, bc.cand);
      var ch := Child(ab.base, bc.cand, ab.step);
      assert ch in Children(a, c) && !NonBreaking(ch.base, ch.cand);
    }
  }

  lemma NoGapKeeps(a: Json, b: Json, c: Json)
    requires a.Obj? && b.Obj? && c.Obj? && !Gap(a, b, c)
    requires LocallyOk(a.fields, b.fields) && LocallyOk(b.fields, c.fields)
    requires forall ab, bc :: Aligned(a, b, c, ab, bc) ==>
               (NonBreaking(ab.base, bc.cand) <==> !Gap(ab.base, ab.cand, bc.cand))
    ensures NonBreaking(a, c)
  {
    LocallyTransitive(a.fields, b.fields, c.fields);
    forall ch | ch in Children(a, c) ensures NonBreaking(ch.base, ch.cand) {
      var m := MiddleChild(a, b, c, ch);
      assert Aligned(a, b, c, Child(ch.base, m, ch.step), Child(m, ch.cand, ch.step));
    }
  }

  lemma Transitive(a: Json, b: Json, c: Json, path: Path)
    requires Compatible(Diff(a, b, path)) && Compatible(Diff(b, c, path))
    ensures Compatible(Diff(a, c, path)) <==> !Gap(a, b, c)
  {
    CompatibleIffNonBreaking(a, b, path);
    CompatibleIffNonBreaking(b, c, path);
    CompatibleIffNonBreaking(a, c, path);
    NonBreakingTransitive(a, b, c);
  }

  /** Schemas whose `additionalProperties` are booleans or objects leave no gap. */
  lemma {:induction false} WellTypedNoGap(a: Json, b: Json, c: Json)
    requires WellTyped(a) && WellTyped(c)
    ensures !Gap(a, b, c)
    decreases a
  {
    if a.Obj? && b.Obj? && c.Obj? {
      forall ab, bc | Aligned(a, b, c, ab, bc) ensures !Gap(ab.base, ab.cand, bc.cand) {
        ChildReached(a, c, Child(ab.base, bc.cand, ab.step));
        WellTypedNoGap(ab.base, ab.cand, bc.cand);
      }
    }
  }

  // ---- A gap that validation lets through

  /** A node that holds `$ref` and nothing else; validation looks no further at such a node. */
  function Bare(r: Json): (s: Json)
    ensures s.Obj? && At(s.fields, Ref) == Some(r) && At(s.fields, Additional) == None
  {
    Obj(map[Ref.Name() := r])
  }

  /** The same with an `additionalProperties` beside the reference. */
  function Lone(r: Json, w: Json): (s: Json)
    ensures s.Obj? && At(s.fields, Ref) == Some(r) && At(s.fields, Additional) == Some(w)
  {
    Obj(map[Ref.Name() := r, Additional.Name() := w])
  }

  /** Beside a reference, leaving an ill-typed value out and then putting another one in is
      silent; changing one for the other is not. */
  lemma IllTypedNotTransitive(r: Json, v: Json, w: Json, path: Path)
    requires Odd(Some(v)) && Odd(Some(w)) && v != w
    ensures Compatible(Diff(Lone(r, v), Bare(r), path)) && Compatible(Diff(Bare(r), Lone(r, w), path))
    ensures !Compatible(Diff(Lone(r, v), Lone(r, w), path))
  {
    AbsentOrOdd(r, v);
    AbsentOrOdd(r, w);
    CompatibleIffNonBreaking(Lone(r, v), Bare(r), path);
    CompatibleIffNonBreaking(Bare(r), Lone(r, w), path);
    assert GapAt(Lone(r, v).fields, Bare(r).fields, Lone(r, w).fields);
    Transitive(Lone(r, v), Bare(r), Lone(r, w), path);
  }

  lemma AbsentOrOdd(r: Json, w: Json)
    requires Odd(Some(w))
    ensures NonBreaking(Lone(r, w), Bare(r)) && NonBreaking(Bare(r), Lone(r, w))
  {
    var lone, bare := Lone(r, w), Bare(r);
    LoneKeywords(r, w);
    LoneProperties(r, w);
    LoneLocally(lone.fields, bare.fields);
    LoneLocally(bare.fields, lone.fields);
    assert At(lone.fields, Items) == None;
    assert Children(lone, bare) == {} && Children(bare, lone) == {};
  }

  lemma LoneLocally(b: Fields, c: Fields)
    requires forall k: Keyword :: k != Additional ==> At(b, k) == At(c, k)
    requires Required(b) == Required(c) && Properties(b).Keys == Properties(c).Keys
    requires KeywordVerdict(Additional, At(b, Additional), At(c, Additional)).Ok()
    ensures LocallyOk(b, c)
  {
    forall k: Keyword ensures KeywordVerdict(k, At(b, k), At(c, k)).Ok() {
      if k != Additional { KeywordSame(k, At(b, k)); }
    }
  }

  lemma LoneKeywords(r: Json, w: Json)
    ensures forall k: Keyword :: k != Additional ==> At(Lone(r, w).fields, k) == At(Bare(r).fields, k)
    ensures At(Lone(r, w).fields, Items) == None
  {
  }

  lemma LoneProperties(r: Json, w: Json)
    ensures Get(Lone(r, w).fields, "properties") == None && Get(Lone(r, w).fields, "required") == None
    ensures Get(Bare(r).fields, "properties") == None && Get(Bare(r).fields, "required") == None
  {
  }

  // ---- An addition read backwards is a break

  lemma KeywordMirrors(k: Keyword, b: Option<Json>, c: Option<Json>)
    requires KeywordVerdict(k, b, c).Adds?
    ensures KeywordVerdict(k, c, b).Breaks?
  {
  }

  lemma KeywordsMirror(b: Fields, c: Fields, path: Path)
    ensures Mirrors(KeywordsDiff(b, c, path), KeywordsDiff(c, b, path))
  {
    forall f | f in KeywordsDiff(b, c, path) && f.change == Additive ensures BreaksAt(KeywordsDiff(c, b, path), f.path) {
      var k: Keyword :| f in KeywordDiff(k, b, c, path);
      KeywordMirrors(k, At(b, k), At(c, k));
      var v := KeywordVerdict(k, At(c, k), At(b, k));
      assert Finding(Breaking, v.notice, Under(path, k.Name())) in KeywordDiff(k, c, b, path);
    }
  }

  lemma LocallyMirrors(b: Fields, c: Fields, path: Path)
    ensures Mirrors(LocalDiff(b, c, path), LocalDiff(c, b, path))
  {
    KeywordsMirror(b, c, path);
    NamesMirror(Required(c), Required(b), p => NowRequired(p, path), p => NowOptional(p, path));
    NamesMirror(Properties(b).Keys, Properties(c).Keys, p => PropertyRemoved(p, path), p => PropertyAdded(p, path));
  }

  lemma MirroredChild(b: Json, c: Json, ch: Child)
    requires ch in Children(b, c)
    ensures Child(ch.cand, ch.base, ch.step) in Children(c, b)
  {
    if ch.step.IntoProperty? {
      assert PropertyChild(c.fields, b.fields, ch.step.name) in Children(c, b);
    }
  }

  lemma {:induction false} AdditionsMirror(b: Json, c: Json, path: Path)
    ensures Mirrors(Diff(b, c, path), Diff(c, b, path))
    decreases b
  {
    if b.Obj? && c.Obj? {
      LocallyMirrors(b.fields, c.fields, path);
      forall f | f in Diff(b, c, path) && f.change == Additive ensures BreaksAt(Diff(c, b, path), f.path) {
        if f !in LocalDiff(b.fields, c.fields, path) {
          var ch :| ch in Children(b, c) && f in Diff(ch.base, ch.cand, ch.step.From(path));
          AdditionsMirror(ch.base, ch.cand, ch.step.From(path));
          MirroredChild(b, c, ch);
          var g :| g in Diff(ch.cand, ch.base, ch.step.From(path)) && g.path == f.path && g.change == Breaking;
          var hc := Child(ch.cand, ch.base, ch.step);
          assert g in Diff(hc.base, hc.cand, hc.step.From(path));
          assert g in Diff(c, b, path);
        }
      }
    }
  }

  /** Schema findings are breaks or additions; the other two classes belong to catalogs. */
  ghost predicate BreakOrAddition(fs: set<Finding>) {
    forall f :: f in fs ==> f.change == Breaking || f.change == Additive
  }

  lemma LocallyBreakOrAddition(b: Fields, c: Fields, path: Path)
    ensures BreakOrAddition(LocalDiff(b, c, path))
  {
    assert BreakOrAddition(RequiredDiff(b, c, path)) && BreakOrAddition(PropertySetDiff(b, c, path));
    assert BreakOrAddition(KeywordsDiff(b, c, path));
  }

  lemma {:induction false} BreaksOrAdds(b: Json, c: Json, path: Path)
    ensures BreakOrAddition(Diff(b, c, path))
    decreases b
  {
    if b.Obj? && c.Obj? {
      LocallyBreakOrAddition(b.fields, c.fields, path);
      forall ch | ch in Children(b, c) ensures BreakOrAddition(Diff(ch.base, ch.cand, ch.step.From(path))) {
        BreaksOrAdds(ch.base, ch.cand, ch.step.From(path));
      }
    }
  }

  /** Two schemas that break neither way are indistinguishable to the comparison. */
  lemma MutuallyCompatible(b: Json, c: Json, path: Path)
    ensures Compatible(Diff(b, c, path)) && Compatible(Diff(c, b, path)) <==> Diff(b, c, path) == {} == Diff(c, b, path)
  {
    AdditionsMirror(b, c, path);
    AdditionsMirror(c, b, path);
    BreaksOrAdds(b, c, path);
    BreaksOrAdds(c, b, path);
  }
}
