/** Exactly when a comparison breaks and when it only adds, said on the JSON values and without
    the verdicts; and for bounds, on the values that the schemas accept. */
module SchemaExact {
  import opened Json
  import opened Seqs
  import opened Notices
  import opened Findings
  import opened SchemaDiff
  import opened Schema
  import opened SchemaSoundness
  import opened SchemaOrder
  import opened SchemaLimits

  // ---- What relaxes one keyword

  /** The keyword lists this name, as a string or in an array. */
  predicate Lists(w: Option<Json>, name: string) {
    w == Some(Str(name)) || (w.Some? && w.value.Arr? && Str(name) in w.value.items)
  }

  predicate IsArray(w: Option<Json>) {
    w.Some? && w.value.Arr?
  }

  /** `type`: the candidate allows every type, or those of the baseline at least. */
  ghost predicate TypesKept(b: Option<Json>, c: Option<Json>) {
    var says := w => IsArray(w) || (w.Some? && w.value.Str?);
    !says(c) || (says(b) && forall name :: Lists(b, name) ==> Lists(c, name))
  }

  /** `enum`, `anyOf`, `oneOf`: the candidate has no list, or one with every member of the baseline. */
  ghost predicate MembersKept(b: Option<Json>, c: Option<Json>) {
    !IsArray(c) || (IsArray(b) && forall x :: x in b.value.items ==> x in c.value.items)
  }

  /** `allOf`: the candidate has no list, or one with members of the baseline only. */
  ghost predicate MembersDropped(b: Option<Json>, c: Option<Json>) {
    !IsArray(c) || (IsArray(b) && forall x :: x in c.value.items ==> x in b.value.items)
  }

  /** `const`, `not`, `pattern`, `format`, `multipleOf`: as before, or gone. */
  predicate SameOrGone(b: Option<Json>, c: Option<Json>) {
    c.None? || b == c
  }

  /** `items`: not newly there. */
  predicate NotNew(b: Option<Json>, c: Option<Json>) {
    c.Some? ==> b.Some?
  }

  /** `additionalProperties`. */
  predicate NoFewerMembers(b: Option<Json>, c: Option<Json>) {
    match c
    case None => true
    case Some(Bool(true)) => b.None? || b.value.Bool? || b.value.Obj?
    case Some(Bool(false)) => b == Some(Bool(false))
    case Some(Obj(_)) => b == Some(Bool(false)) || (b.Some? && b.value.Obj?)
    case Some(other) => b.None? || b.value == other
  }

  predicate IsNumber(w: Option<Json>) {
    w.Some? && w.value.Num?
  }

  /** A lower bound: gone, or not raised. */
  predicate FloorKept(b: Option<Json>, c: Option<Json>) {
    IsNumber(c) ==> IsNumber(b) && c.value.value <= b.value.value
  }

  /** An upper bound: gone, or not lowered. */
  predicate CeilingKept(b: Option<Json>, c: Option<Json>) {
    IsNumber(c) ==> IsNumber(b) && c.value.value >= b.value.value
  }

  ghost predicate Relaxes(k: Keyword, b: Option<Json>, c: Option<Json>) {
    match k
    case Type => TypesKept(b, c)
    case Enum | AnyOf | OneOf => MembersKept(b, c)
    case AllOf => MembersDropped(b, c)
    case Const | Not | Pattern | Format | MultipleOf => SameOrGone(b, c)
    case Ref => b == c
    case Items => NotNew(b, c)
    case Additional => NoFewerMembers(b, c)
    case Minimum | ExclusiveMinimum | MinLength | MinItems | MinProperties => FloorKept(b, c)
    case Maximum | ExclusiveMaximum | MaxLength | MaxItems | MaxProperties => CeilingKept(b, c)
  }

  lemma ListedTypes(w: Option<Json>)
    ensures SchemaTypes(w).Some? <==> IsArray(w) || (w.Some? && w.value.Str?)
    ensures SchemaTypes(w).Some? ==> forall name :: name in SchemaTypes(w).value <==> Lists(w, name)
  {
    if IsArray(w) {
      forall name ensures name in SchemaTypes(w).value <==> Lists(w, name) {
        if Lists(w, name) { var i :| 0 <= i < |w.value.items| && w.value.items[i] == Str(name); }
      }
    }
  }

  lemma TypesExactly(b: Option<Json>, c: Option<Json>)
    ensures KeywordVerdict(Type, b, c).Ok() <==> TypesKept(b, c)
    ensures KeywordVerdict(Type, b, c).Adds? <==> TypesKept(b, c) && !TypesKept(c, b)
  {
    ListedTypes(b);
    ListedTypes(c);
  }

  lemma ArraysExactly(b: Option<Json>, c: Option<Json>)
    ensures IsArray(b) && IsArray(c) ==>
              (Elements(b.value.items) <= Elements(c.value.items) <==> forall x :: x in b.value.items ==> x in c.value.items)
  {
    if IsArray(b) && IsArray(c) && Elements(b.value.items) <= Elements(c.value.items) {
      forall x | x in b.value.items ensures x in c.value.items { assert x in Elements(b.value.items); }
    }
  }

  /** A keyword breaks exactly when it is not relaxed, and adds exactly when it is, and not back. */
  lemma KeywordExactly(k: Keyword, b: Option<Json>, c: Option<Json>)
    ensures KeywordVerdict(k, b, c).Ok() <==> Relaxes(k, b, c)
    ensures KeywordVerdict(k, b, c).Adds? <==> Relaxes(k, b, c) && !Relaxes(k, c, b)
  {
    match k
    case Type => TypesExactly(b, c);
    case Enum | AnyOf | OneOf | AllOf => ListsExactly(k, b, c);
    case Additional => AdditionalExactly(b, c);
    case _ =>
  }

  lemma ListsExactly(k: Keyword, b: Option<Json>, c: Option<Json>)
    requires k in {Enum, AnyOf, OneOf, AllOf}
    ensures KeywordVerdict(k, b, c).Ok() <==> Relaxes(k, b, c)
    ensures KeywordVerdict(k, b, c).Adds? <==> Relaxes(k, b, c) && !Relaxes(k, c, b)
  {
    ArraysExactly(b, c);
    ArraysExactly(c, b);
  }

  lemma AdditionalExactly(b: Option<Json>, c: Option<Json>)
    ensures AdditionalVerdict(b, c).Ok() <==> NoFewerMembers(b, c)
    ensures AdditionalVerdict(b, c).Adds? <==> NoFewerMembers(b, c) && !NoFewerMembers(c, b)
  {
  }

  // ---- What relaxes a schema

  /** The names that the keywords stand under. */
  lemma KeywordNames()
    ensures Type.Name() == "type" && Enum.Name() == "enum" && Const.Name() == "const" && Ref.Name() == "$ref"
    ensures AnyOf.Name() == "anyOf" && OneOf.Name() == "oneOf" && AllOf.Name() == "allOf" && Not.Name() == "not"
    ensures Items.Name() == "items" && Additional.Name() == "additionalProperties"
    ensures Pattern.Name() == "pattern" && Format.Name() == "format" && MultipleOf.Name() == "multipleOf"
    ensures Minimum.Name() == "minimum" && ExclusiveMinimum.Name() == "exclusiveMinimum"
    ensures MinLength.Name() == "minLength" && MinItems.Name() == "minItems" && MinProperties.Name() == "minProperties"
    ensures Maximum.Name() == "maximum" && ExclusiveMaximum.Name() == "exclusiveMaximum"
    ensures MaxLength.Name() == "maxLength" && MaxItems.Name() == "maxItems" && MaxProperties.Name() == "maxProperties"
  {
  }

  /** No member is required that was not, and no property is gone. */
  ghost predicate Members(b: Fields, c: Fields) {
    && (forall name :: IsArray(Get(c, "required")) && Lists(Get(c, "required"), name) ==>
          IsArray(Get(b, "required")) && Lists(Get(b, "required"), name))
    && Properties(b).Keys <= Properties(c).Keys
  }

  ghost predicate LoosenedHere(b: Fields, c: Fields) {
    Members(b, c) && forall k: Keyword :: RelaxesAt(k, b, c)
  }

  lemma RequiredLists(o: Fields, name: string)
    ensures name in Required(o) <==> IsArray(Get(o, "required")) && Lists(Get(o, "required"), name)
  {
    ListedTypes(Get(o, "required"));
  }

  ghost predicate RelaxesAt(k: Keyword, b: Fields, c: Fields) {
    Relaxes(k, At(b, k), At(c, k))
  }

  /** One level of two schemas has no break exactly when it is loosened. */
  lemma LocallyExactly(b: Fields, c: Fields)
    ensures LocallyOk(b, c) <==> LoosenedHere(b, c)
  {
    forall k: Keyword ensures KeywordVerdict(k, At(b, k), At(c, k)).Ok() <==> RelaxesAt(k, b, c) {
      KeywordExactly(k, At(b, k), At(c, k));
    }
    forall name ensures name in Required(b) <==> IsArray(Get(b, "required")) && Lists(Get(b, "required"), name) {
      RequiredLists(b, name);
    }
    forall name ensures name in Required(c) <==> IsArray(Get(c, "required")) && Lists(Get(c, "required"), name) {
      RequiredLists(c, name);
    }
  }

  // ---- Whole schemas

  /** Two schemas at the same place: under a property of both, or as items or additional members
      of both. */
  ghost predicate SamePlace(b: Fields, c: Fields, x: Json, y: Json) {
    || (exists p :: p in Properties(b) && p in Properties(c) && x == Properties(b)[p] && y == Properties(c)[p])
    || (Get(b, "items") == Some(x) && Get(c, "items") == Some(y))
    || (Get(b, "additionalProperties") == Some(x) && Get(c, "additionalProperties") == Some(y) && x.Obj? && y.Obj?)
  }

  lemma SamePlaceExactly(b: Json, c: Json, x: Json, y: Json)
    requires b.Obj? && c.Obj?
    ensures SamePlace(b.fields, c.fields, x, y) <==> exists ch :: ch in Children(b, c) && ch.base == x && ch.cand == y
  {
    if p :| p in Properties(b.fields) && p in Properties(c.fields)
            && x == Properties(b.fields)[p] && y == Properties(c.fields)[p] {
      assert PropertyChild(b.fields, c.fields, p) in Children(b, c);
    }
    if Get(b.fields, "items") == Some(x) && Get(c.fields, "items") == Some(y) {
      assert Child(x, y, IntoItems) in Children(b, c);
    }
    if Get(b.fields, "additionalProperties") == Some(x) && Get(c.fields, "additionalProperties") == Some(y) && x.Obj? && y.Obj? {
      assert Child(x, y, IntoAdditional) in Children(b, c);
    }
  }

  /** The candidate is loosened, here and at every place below that both have. */
  ghost predicate Loosened(b: Json, c: Json)
    decreases b
  {
    if b.Obj? && c.Obj? then
      && LoosenedHere(b.fields, c.fields)
      && forall x, y | x < b && SamePlace(b.fields, c.fields, x, y) :: Loosened(x, y)
    else b == c
  }

  /** A comparison has no break exactly when the candidate is loosened. */
  lemma {:induction false} CompatibleExactly(b: Json, c: Json, path: Path)
    ensures Compatible(Diff(b, c, path)) <==> Loosened(b, c)
  {
    CompatibleIffNonBreaking(b, c, path);
    NonBreakingExactly(b, c);
  }

  lemma {:induction false} NonBreakingExactly(b: Json, c: Json)
    ensures NonBreaking(b, c) <==> Loosened(b, c)
    decreases b
  {
    if b.Obj? && c.Obj? {
      LocallyExactly(b.fields, c.fields);
      forall ch | ch in Children(b, c)
        ensures ch.base < b && SamePlace(b.fields, c.fields, ch.base, ch.cand)
        ensures NonBreaking(ch.base, ch.cand) <==> Loosened(ch.base, ch.cand)
      {
        SamePlaceExactly(b, c, ch.base, ch.cand);
        NonBreakingExactly(ch.base, ch.cand);
      }
      forall x, y | SamePlace(b.fields, c.fields, x, y) ensures exists ch :: ch in Children(b, c) && ch.base == x && ch.cand == y {
        SamePlaceExactly(b, c, x, y);
      }
    }
  }

  // ---- The whole report

  ghost predicate Has(fs: set<Finding>, change: ChangeClass, at: Path) {
    exists f :: f in fs && f.change == change && f.path == at
  }

  /** A name that is listed on one side only: a break where that side is `breaks`. */
  ghost predicate NameReported(breaks: set<string>, adds: set<string>, parent: Path, change: ChangeClass, at: Path) {
    exists name :: at == Under(parent, name)
      && ((change == Breaking && name in breaks && name !in adds) || (change == Additive && name in adds && name !in breaks))
  }

  ghost predicate ReportedAt(k: Keyword, b: Fields, c: Fields, path: Path, change: ChangeClass, at: Path) {
    && at == Under(path, k.Name())
    && (|| (change == Breaking && !RelaxesAt(k, b, c))
        || (change == Additive && RelaxesAt(k, b, c) && !RelaxesAt(k, c, b)))
  }

  ghost predicate KeywordReported(b: Fields, c: Fields, path: Path, change: ChangeClass, at: Path) {
    exists k: Keyword :: ReportedAt(k, b, c, path, change, at)
  }

  /** What one level of a schema has to report, and where: newly required members and lost
      properties break, members no longer required and new properties add, and keywords break
      where they are not relaxed. */
  ghost predicate ReportedHere(b: Fields, c: Fields, path: Path, change: ChangeClass, at: Path) {
    || NameReported(Required(c), Required(b), Under(path, "required"), change, at)
    || NameReported(Properties(b).Keys, Properties(c).Keys, Under(path, "properties"), change, at)
    || KeywordReported(b, c, path, change, at)
  }

  ghost predicate PropertyPlace(b: Fields, c: Fields, path: Path, x: Json, y: Json, below: Path, p: string) {
    && p in Properties(b) && p in Properties(c) && x == Properties(b)[p] && y == Properties(c)[p]
    && below == Under(Under(path, "properties"), p)
  }

  ghost predicate ItemsPlace(b: Fields, c: Fields, path: Path, x: Json, y: Json, below: Path) {
    Get(b, "items") == Some(x) && Get(c, "items") == Some(y) && below == Under(path, "items")
  }

  ghost predicate AdditionalPlace(b: Fields, c: Fields, path: Path, x: Json, y: Json, below: Path) {
    && Get(b, "additionalProperties") == Some(x) && Get(c, "additionalProperties") == Some(y) && x.Obj? && y.Obj?
    && below == Under(path, "additionalProperties")
  }

  /** The places below that both schemas have. */
  ghost predicate Descends(b: Fields, c: Fields, path: Path, x: Json, y: Json, below: Path) {
    || (exists p :: PropertyPlace(b, c, path, x, y, below, p))
    || ItemsPlace(b, c, path, x, y, below) || AdditionalPlace(b, c, path, x, y, below)
  }

  ghost predicate Reported(b: Json, c: Json, path: Path, change: ChangeClass, at: Path)
    decreases b
  {
    if b.Obj? && c.Obj? then
      || ReportedHere(b.fields, c.fields, path, change, at)
      || exists x, y, below :: x < b && Descends(b.fields, c.fields, path, x, y, below) && Reported(x, y, below, change, at)
    else b != c && change == Breaking && at == path
  }

  lemma NamesReported(was: set<string>, now: set<string>, gone: string -> Finding, appeared: string -> Finding, parent: Path,
                      change: ChangeClass, at: Path)
    requires forall x :: gone(x).change == Breaking && gone(x).path == Under(parent, x)
    requires forall x :: appeared(x).change == Additive && appeared(x).path == Under(parent, x)
    ensures Has(NamesDiff(was, now, gone, appeared), change, at) <==> NameReported(was, now, parent, change, at)
  {
    var fs := NamesDiff(was, now, gone, appeared);
    if name :| at == Under(parent, name) && change == Breaking && name in was && name !in now {
      assert gone(name) in fs;
    }
    if name :| at == Under(parent, name) && change == Additive && name in now && name !in was {
      assert appeared(name) in fs;
    }
  }

  lemma EmitHas(v: Verdict, place: Path, change: ChangeClass, at: Path)
    ensures Has(Emit(v, place), change, at) <==>
            at == place && ((change == Breaking && v.Breaks?) || (change == Additive && v.Adds?))
  {
    if v.Breaks? { assert Finding(Breaking, v.notice, place) in Emit(v, place); }
    if v.Adds? { assert Finding(Additive, v.notice, place) in Emit(v, place); }
  }

  /** What is found at a keyword: a break where it is not relaxed, an addition where it is relaxed
      and would break the other way, and otherwise nothing. */
  lemma VerdictReported(v: Verdict, relaxes: bool, back: bool, place: Path, change: ChangeClass, at: Path)
    requires (v.Ok() <==> relaxes) && (v.Adds? <==> relaxes && !back)
    ensures Has(Emit(v, place), change, at) <==>
            at == place && ((change == Breaking && !relaxes) || (change == Additive && relaxes && !back))
  {
    EmitHas(v, place, change, at);
  }

  lemma KeywordReportedAt(k: Keyword, b: Fields, c: Fields, path: Path, change: ChangeClass, at: Path)
    ensures Has(KeywordDiff(k, b, c, path), change, at) <==> ReportedAt(k, b, c, path, change, at)
  {
    var x, y := At(b, k), At(c, k);
    KeywordExactly(k, x, y);
    VerdictReported(KeywordVerdict(k, x, y), Relaxes(k, x, y), Relaxes(k, y, x), Under(path, k.Name()), change, at);
  }

  lemma UnionHas(diff: Keyword -> set<Finding>, all: set<Finding>, change: ChangeClass, at: Path)
    requires forall f :: f in all <==> exists k: Keyword :: f in diff(k)
    ensures Has(all, change, at) <==> exists k: Keyword :: Has(diff(k), change, at)
  {
    if Has(all, change, at) {
      var f :| f in all && f.change == change && f.path == at;
      var k: Keyword :| f in diff(k);
      assert Has(diff(k), change, at);
    }
    if k: Keyword :| Has(diff(k), change, at) {
      var f :| f in diff(k) && f.change == change && f.path == at;
      assert f in all;
    }
  }

  lemma KeywordsReported(b: Fields, c: Fields, path: Path, change: ChangeClass, at: Path)
    ensures Has(KeywordsDiff(b, c, path), change, at) <==> KeywordReported(b, c, path, change, at)
  {
    var diff := (k: Keyword) => KeywordDiff(k, b, c, path);
    forall f ensures f in KeywordsDiff(b, c, path) <==> exists k: Keyword :: f in diff(k) {
      assert forall k: Keyword :: diff(k) == KeywordDiff(k, b, c, path);
    }
    UnionHas(diff, KeywordsDiff(b, c, path), change, at);
    forall k: Keyword ensures Has(diff(k), change, at) <==> ReportedAt(k, b, c, path, change, at) {
      KeywordReportedAt(k, b, c, path, change, at);
    }
  }

  lemma HasUnion(a: set<Finding>, b: set<Finding>, change: ChangeClass, at: Path)
    ensures Has(a + b, change, at) <==> Has(a, change, at) || Has(b, change, at)
  {
    if Has(a, change, at) {
      var f :| f in a && f.change == change && f.path == at;
      assert f in a + b;
    }
    if Has(b, change, at) {
      var f :| f in b && f.change == change && f.path == at;
      assert f in a + b;
    }
  }

  lemma LocallyReported(b: Fields, c: Fields, path: Path, change: ChangeClass, at: Path)
    ensures Has(LocalDiff(b, c, path), change, at) <==> ReportedHere(b, c, path, change, at)
  {
    NamesReported(Required(c), Required(b), p => NowRequired(p, path), p => NowOptional(p, path),
                  Under(path, "required"), change, at);
    NamesReported(Properties(b).Keys, Properties(c).Keys, p => PropertyRemoved(p, path), p => PropertyAdded(p, path),
                  Under(path, "properties"), change, at);
    KeywordsReported(b, c, path, change, at);
    HasUnion(RequiredDiff(b, c, path) + PropertySetDiff(b, c, path), KeywordsDiff(b, c, path), change, at);
    HasUnion(RequiredDiff(b, c, path), PropertySetDiff(b, c, path), change, at);
  }

  lemma ChildDescends(b: Json, c: Json, path: Path, ch: Child)
    requires b.Obj? && c.Obj? && ch in Children(b, c)
    ensures Descends(b.fields, c.fields, path, ch.base, ch.cand, ch.step.From(path))
  {
    match ch.step
    case IntoProperty(p) => assert PropertyPlace(b.fields, c.fields, path, ch.base, ch.cand, ch.step.From(path), p);
    case IntoItems =>
    case IntoAdditional =>
  }

  lemma PropertyBelow(b: Json, c: Json, path: Path, p: string)
    requires b.Obj? && c.Obj? && p in Properties(b.fields) && p in Properties(c.fields)
    ensures PropertyChild(b.fields, c.fields, p) in Children(b, c)
    ensures PropertyChild(b.fields, c.fields, p).step.From(path) == Under(Under(path, "properties"), p)
  {
  }

  lemma ItemsBelow(b: Json, c: Json, path: Path, x: Json, y: Json)
    requires b.Obj? && c.Obj? && Get(b.fields, "items") == Some(x) && Get(c.fields, "items") == Some(y)
    ensures Child(x, y, IntoItems) in Children(b, c) && IntoItems.From(path) == Under(path, "items")
  {
  }

  lemma AdditionalBelow(b: Json, c: Json, path: Path, x: Json, y: Json)
    requires b.Obj? && c.Obj? && x.Obj? && y.Obj?
    requires Get(b.fields, "additionalProperties") == Some(x) && Get(c.fields, "additionalProperties") == Some(y)
    ensures Child(x, y, IntoAdditional) in Children(b, c) && IntoAdditional.From(path) == Under(path, "additionalProperties")
  {
  }

  ghost predicate ChildAt(b: Json, c: Json, path: Path, x: Json, y: Json, below: Path) {
    exists ch :: ch in Children(b, c) && ch.base == x && ch.cand == y && ch.step.From(path) == below
  }

  lemma PropertyChildAt(b: Json, c: Json, path: Path, x: Json, y: Json, below: Path, p: string)
    requires b.Obj? && c.Obj? && PropertyPlace(b.fields, c.fields, path, x, y, below, p)
    ensures ChildAt(b, c, path, x, y, below)
  {
    PropertyBelow(b, c, path, p);
  }

  lemma ItemsChildAt(b: Json, c: Json, path: Path, x: Json, y: Json, below: Path)
    requires b.Obj? && c.Obj? && ItemsPlace(b.fields, c.fields, path, x, y, below)
    ensures ChildAt(b, c, path, x, y, below)
  {
    ItemsBelow(b, c, path, x, y);
  }

  lemma AdditionalChildAt(b: Json, c: Json, path: Path, x: Json, y: Json, below: Path)
    requires b.Obj? && c.Obj? && AdditionalPlace(b.fields, c.fields, path, x, y, below)
    ensures ChildAt(b, c, path, x, y, below)
  {
    AdditionalBelow(b, c, path, x, y);
  }

  lemma DescendsChild(b: Json, c: Json, path: Path, x: Json, y: Json, below: Path)
    requires b.Obj? && c.Obj? && Descends(b.fields, c.fields, path, x, y, below)
    ensures ChildAt(b, c, path, x, y, below)
  {
    if p :| PropertyPlace(b.fields, c.fields, path, x, y, below, p) {
      PropertyChildAt(b, c, path, x, y, below, p);
    } else if ItemsPlace(b.fields, c.fields, path, x, y, below) {
      ItemsChildAt(b, c, path, x, y, below);
    } else {
      AdditionalChildAt(b, c, path, x, y, below);
    }
  }

  function Deeper(b: Json, c: Json, path: Path): set<Finding> {
    set ch, f | ch in Children(b, c) && f in Diff(ch.base, ch.cand, ch.step.From(path)) :: f
  }

  /** The report has a break, or an addition, exactly where it has to. */
  lemma {:induction false} ReportExactly(b: Json, c: Json, path: Path, change: ChangeClass, at: Path)
    ensures Has(Diff(b, c, path), change, at) <==> Reported(b, c, path, change, at)
    decreases b
  {
    if b.Obj? && c.Obj? {
      LocallyReported(b.fields, c.fields, path, change, at);
      HasUnion(LocalDiff(b.fields, c.fields, path), Deeper(b, c, path), change, at);
      forall ch | ch in Children(b, c)
        ensures ch.base < b && Descends(b.fields, c.fields, path, ch.base, ch.cand, ch.step.From(path))
        ensures Has(Diff(ch.base, ch.cand, ch.step.From(path)), change, at)
                <==> Reported(ch.base, ch.cand, ch.step.From(path), change, at)
      {
        ChildDescends(b, c, path, ch);
        ReportExactly(ch.base, ch.cand, ch.step.From(path), change, at);
      }
      DeeperHas(b, c, path, change, at);
      forall x, y, below | Descends(b.fields, c.fields, path, x, y, below)
        ensures ChildAt(b, c, path, x, y, below)
      {
        DescendsChild(b, c, path, x, y, below);
      }
    }
  }

  lemma DeeperHas(b: Json, c: Json, path: Path, change: ChangeClass, at: Path)
    ensures Has(Deeper(b, c, path), change, at) <==>
            exists ch :: ch in Children(b, c) && Has(Diff(ch.base, ch.cand, ch.step.From(path)), change, at)
  {
    if Has(Deeper(b, c, path), change, at) {
      var f :| f in Deeper(b, c, path) && f.change == change && f.path == at;
      var ch :| ch in Children(b, c) && f in Diff(ch.base, ch.cand, ch.step.From(path));
      assert Has(Diff(ch.base, ch.cand, ch.step.From(path)), change, at);
    }
    if ch :| ch in Children(b, c) && Has(Diff(ch.base, ch.cand, ch.step.From(path)), change, at) {
      var f :| f in Diff(ch.base, ch.cand, ch.step.From(path)) && f.change == change && f.path == at;
      assert f in Deeper(b, c, path);
    }
  }

  // ---- The notices

  /** What is said where a keyword breaks: `was` tells whether the baseline had a say there. */
  function BreakNotice(k: Keyword, was: bool): Notice
    requires k != Additional
  {
    match k
    case Type => if was then TypeNarrowed else TypeAdded
    case Enum => if was then EnumNarrowed else EnumAdded
    case AnyOf | OneOf => if was then UnionNarrowed else UnionAdded
    case AllOf => if was then IntersectionNarrowed else IntersectionAdded
    case Const => if was then ConstChanged else ConstAdded
    case Not => if was then NegationChanged else NegationAdded
    case Ref => ReferenceChanged
    case Items => ItemsAdded
    case Pattern | Format | MultipleOf => if was then FormatChanged else FormatAdded
    case Minimum | ExclusiveMinimum | MinLength | MinItems | MinProperties => if was then LowerStricter else LowerAdded
    case Maximum | ExclusiveMaximum | MaxLength | MaxItems | MaxProperties => if was then UpperStricter else UpperAdded
  }

  /** What is said where it adds: `stays` tells whether the candidate has a say there. */
  function AddNotice(k: Keyword, stays: bool): Notice
    requires k != Additional
  {
    match k
    case Type => if stays then TypeWidened else TypeRemoved
    case Enum => if stays then EnumWidened else EnumRemoved
    case AnyOf | OneOf => if stays then UnionWidened else UnionRemoved
    case AllOf => if stays then IntersectionRelaxed else IntersectionRemoved
    case Const => ConstRemoved
    case Not => NegationRemoved
    case Ref => ReferenceChanged
    case Items => ItemsRemoved
    case Pattern | Format | MultipleOf => FormatRemoved
    case Minimum | ExclusiveMinimum | MinLength | MinItems | MinProperties => if stays then LowerRelaxed else LowerRemoved
    case Maximum | ExclusiveMaximum | MaxLength | MaxItems | MaxProperties => if stays then UpperRelaxed else UpperRemoved
  }

  /** Whether a value has a say at a keyword. */
  predicate Speaks(k: Keyword, w: Option<Json>) {
    match k
    case Type => IsArray(w) || (w.Some? && w.value.Str?)
    case Enum | AnyOf | OneOf | AllOf => IsArray(w)
    case Const | Not | Ref | Items | Additional | Pattern | Format | MultipleOf => w.Some?
    case _ => IsNumber(w)
  }

  lemma KeywordNotices(k: Keyword, b: Option<Json>, c: Option<Json>)
    requires k != Additional
    ensures KeywordVerdict(k, b, c).Breaks? ==> KeywordVerdict(k, b, c).notice == BreakNotice(k, Speaks(k, b))
    ensures KeywordVerdict(k, b, c).Adds? ==> KeywordVerdict(k, b, c).notice == AddNotice(k, Speaks(k, c))
  {
    if IsBound(k) { BoundNotices(k, b, c); } else { OtherNotices(k, b, c); }
  }

  lemma BoundNotices(k: Keyword, b: Option<Json>, c: Option<Json>)
    requires IsBound(k)
    ensures KeywordVerdict(k, b, c).Breaks? ==> KeywordVerdict(k, b, c).notice == BreakNotice(k, Speaks(k, b))
    ensures KeywordVerdict(k, b, c).Adds? ==> KeywordVerdict(k, b, c).notice == AddNotice(k, Speaks(k, c))
  {
  }

  lemma OtherNotices(k: Keyword, b: Option<Json>, c: Option<Json>)
    requires !IsBound(k) && k != Additional
    ensures KeywordVerdict(k, b, c).Breaks? ==> KeywordVerdict(k, b, c).notice == BreakNotice(k, Speaks(k, b))
    ensures KeywordVerdict(k, b, c).Adds? ==> KeywordVerdict(k, b, c).notice == AddNotice(k, Speaks(k, c))
  {
  }

  lemma AdditionalNotices(b: Option<Json>, c: Option<Json>)
    ensures AdditionalVerdict(b, c).Breaks? ==>
              AdditionalVerdict(b, c).notice ==
              if b.Some? && (Odd(b) || Odd(c)) then AdditionalChanged
              else if c == Some(Bool(false)) then AdditionalForbidden
              else AdditionalConstrained
    ensures AdditionalVerdict(b, c).Adds? ==>
              AdditionalVerdict(b, c).notice ==
              if IsObject(b) then AdditionalUnconstrained
              else if IsObject(c) then AdditionalPermittedConstrained
              else AdditionalPermitted
  {
  }

  // ---- Bounds, by the values that are accepted

  predicate IsBound(k: Keyword) {
    k in {Minimum, ExclusiveMinimum, MinLength, MinItems, MinProperties, Maximum, ExclusiveMaximum, MaxLength, MaxItems,
          MaxProperties}
  }

  /** The bounds on lengths and counts. */
  predicate Counting(k: Keyword) {
    k in {MinLength, MinItems, MinProperties, MaxLength, MaxItems, MaxProperties}
  }

  /** A schema that says this bound, or nothing. */
  ghost predicate Bounds(s: Json, k: Keyword, w: Option<Json>) {
    && s.Obj? && Get(s.fields, "required") == None && Properties(s.fields) == map[]
    && At(s.fields, k) == w && forall j: Keyword :: j != k ==> At(s.fields, j) == None
  }

  /** No bound, a number, or for lengths and counts a natural number. */
  predicate Numeric(k: Keyword, w: Option<Json>) {
    w.Some? ==> w.value.Num? && (Counting(k) ==> Natural(w.value.value))
  }

  predicate Natural(x: real) {
    x >= 0.0 && x == x.Floor as real
  }

  lemma BoundsAccept(s: Json, k: Keyword, w: Option<Json>, v: Json, I: Interp)
    requires IsBound(k) && Bounds(s, k, w)
    ensures Accepts(s, v, I) <==> (w.Some? ==> BoundOk(k, w.value, v))
  {
    BoundMembers(s, k, w, v, I);
    BoundFlat(s, k, w, v, I);
  }

  lemma BoundMembers(s: Json, k: Keyword, w: Option<Json>, v: Json, I: Interp)
    requires IsBound(k) && Bounds(s, k, w)
    ensures MembersOk(s, v, I) && AnyOfOk(s, v, I) && OneOfOk(s, v, I) && AllOfOk(s, v, I) && NotOk(s, v, I) && ItemsOk(s, v, I)
  {
    forall key, x ensures MemberOk(s, key, x, I) { assert MemberSchema(s, key) == Bool(true); }
  }

  lemma BoundFlat(s: Json, k: Keyword, w: Option<Json>, v: Json, I: Interp)
    requires IsBound(k) && Bounds(s, k, w)
    ensures FlatOk(s.fields, v, I) <==> (w.Some? ==> BoundOk(k, w.value, v))
  {
    if w.Some? {
      assert FlatKeywordOk(k, w.value, v, I) == BoundOk(k, w.value, v);
      assert FlatOk(s.fields, v, I) ==> FlatKeywordOk(k, At(s.fields, k).value, v, I);
    }
  }

  /** An object with that many members. */
  function Crowd(n: nat): (m: map<string, Json>)
    ensures |m| == n && forall key :: key in m ==> |key| < n
  {
    if n == 0 then map[]
    else
      var key := seq(n - 1, i => 'x');
      var m := Crowd(n - 1);
      assert key !in m;
      m[key := Null]
  }

  /** Some value that measures so. */
  lemma Measured(k: Keyword, x: real) returns (v: Json)
    requires IsBound(k) && (Counting(k) ==> Natural(x))
    ensures Measure(k, v) == Some(x)
  {
    match k
    case MinLength | MaxLength => v := Str(seq(x.Floor, i => 'x'));
    case MinItems | MaxItems => v := Arr(seq(x.Floor, i => Null));
    case MinProperties | MaxProperties => v := Obj(Crowd(x.Floor));
    case _ => v := Num("", x);
  }

  /** The bound lets through what measures so. */
  predicate LetsThrough(k: Keyword, w: Option<Json>, x: real)
    requires w.Some? ==> w.value.Num?
  {
    w.Some? ==>
      match k
      case Minimum | MinLength | MinItems | MinProperties => x >= w.value.value
      case ExclusiveMinimum => x > w.value.value
      case Maximum | MaxLength | MaxItems | MaxProperties => x <= w.value.value
      case ExclusiveMaximum => x < w.value.value
      case _ => true
  }

  lemma BoundIs(k: Keyword, w: Option<Json>, v: Json)
    requires IsBound(k) && Numeric(k, w) && Measure(k, v).Some?
    ensures (w.Some? ==> BoundOk(k, w.value, v)) <==> LetsThrough(k, w, Measure(k, v).value)
  {
  }

  /** A measure between two bounds, let through by the first and not by the second. */
  lemma Between(k: Keyword, x: Option<Json>, y: Option<Json>) returns (m: real)
    requires IsBound(k) && Numeric(k, x) && Numeric(k, y) && !Relaxes(k, x, y) && !Idle(k, x, y)
    ensures Counting(k) ==> Natural(m)
    ensures LetsThrough(k, x, m) && !LetsThrough(k, y, m)
  {
    var w := y.value.value;
    if k == ExclusiveMinimum {
      m := if x.None? then w - 1.0 else w;
    } else if k == ExclusiveMaximum {
      m := if x.None? then w + 1.0 else w;
    } else if k.LowerBound() {
      m := if x.Some? then x.value.value else if Counting(k) then 0.0 else w - 1.0;
    } else {
      m := if x.Some? then x.value.value else w + 1.0;
      if Counting(k) { NaturalNext(w); }
    }
  }

  lemma NaturalNext(x: real)
    requires Natural(x)
    ensures Natural(x + 1.0)
  {
    var n: int := x.Floor;
    assert x + 1.0 == (n + 1) as real;
  }

  /** A lower bound of nothing on lengths or counts: newly there, and lets everything through. */
  predicate Idle(k: Keyword, x: Option<Json>, y: Option<Json>) {
    k in {MinLength, MinItems, MinProperties} && x.None? && y.Some? && y.value.Num? && y.value.value == 0.0
  }

  lemma RelaxedLetsThrough(k: Keyword, x: Option<Json>, y: Option<Json>, m: real)
    requires IsBound(k) && Numeric(k, x) && Numeric(k, y) && (Relaxes(k, x, y) || (Idle(k, x, y) && m >= 0.0))
    requires LetsThrough(k, x, m)
    ensures LetsThrough(k, y, m)
  {
  }

  lemma CountsUp(k: Keyword, v: Json)
    requires Counting(k) && Measure(k, v).Some?
    ensures Measure(k, v).value >= 0.0
  {
  }

  /** Two schemas that say one bound each, or none: everything stays accepted exactly when the
      bound is relaxed, or is an idle one. */
  lemma BoundsContained(b: Json, c: Json, k: Keyword, x: Option<Json>, y: Option<Json>, I: Interp)
    requires IsBound(k) && Bounds(b, k, x) && Bounds(c, k, y) && Numeric(k, x) && Numeric(k, y)
    ensures Contained(b, c, I) <==> Relaxes(k, x, y) || Idle(k, x, y)
  {
    if Relaxes(k, x, y) || Idle(k, x, y) {
      forall v | Accepts(b, v, I) ensures Accepts(c, v, I) {
        BoundsAccept(b, k, x, v, I);
        BoundsAccept(c, k, y, v, I);
        if Measure(k, v).Some? {
          BoundIs(k, x, v);
          BoundIs(k, y, v);
          if Counting(k) { CountsUp(k, v); }
          RelaxedLetsThrough(k, x, y, Measure(k, v).value);
        }
      }
    } else {
      var v := LostValue(b, c, k, x, y, I);
    }
  }

  lemma LostValue(b: Json, c: Json, k: Keyword, x: Option<Json>, y: Option<Json>, I: Interp) returns (v: Json)
    requires IsBound(k) && Bounds(b, k, x) && Bounds(c, k, y) && Numeric(k, x) && Numeric(k, y)
    requires !Relaxes(k, x, y) && !Idle(k, x, y)
    ensures Accepts(b, v, I) && !Accepts(c, v, I)
  {
    var m := Between(k, x, y);
    v := Measured(k, m);
    BoundIs(k, x, v);
    BoundIs(k, y, v);
    BoundsAccept(b, k, x, v, I);
    BoundsAccept(c, k, y, v, I);
  }

  lemma SilentElsewhere(k: Keyword)
    ensures Relaxes(k, None, None)
  {
  }

  /** Nothing but keywords, none of them with a schema inside. */
  ghost predicate Flat(o: Fields) {
    Get(o, "required") == None && Properties(o) == map[] && Get(o, "items") == None && Get(o, "additionalProperties") == None
  }

  lemma BoundsAreFlat(s: Json, k: Keyword, w: Option<Json>)
    requires IsBound(k) && Bounds(s, k, w)
    ensures Flat(s.fields)
  {
    assert At(s.fields, Items).None? && At(s.fields, Additional).None?;
  }

  lemma FlatLoosened(b: Fields, c: Fields)
    requires Flat(b) && Flat(c)
    ensures Loosened(Obj(b), Obj(c)) <==> forall k: Keyword :: RelaxesAt(k, b, c)
  {
  }

  lemma FlatReported(b: Fields, c: Fields, path: Path, change: ChangeClass, at: Path)
    requires Flat(b) && Flat(c)
    ensures Reported(Obj(b), Obj(c), path, change, at) <==> KeywordReported(b, c, path, change, at)
  {
    assert Required(b) == {} && Required(c) == {};
  }

  lemma RelaxesOnly(b: Fields, c: Fields, k: Keyword)
    requires forall j: Keyword :: j != k ==> At(b, j) == None && At(c, j) == None
    ensures (forall j: Keyword :: RelaxesAt(j, b, c)) <==> RelaxesAt(k, b, c)
    ensures forall j: Keyword :: j != k ==> RelaxesAt(j, b, c)
  {
    forall j: Keyword | j != k ensures RelaxesAt(j, b, c) { SilentElsewhere(j); }
  }

  lemma BoundsLoosened(b: Json, c: Json, k: Keyword, x: Option<Json>, y: Option<Json>)
    requires IsBound(k) && Bounds(b, k, x) && Bounds(c, k, y)
    ensures Loosened(b, c) <==> Relaxes(k, x, y)
  {
    BoundsAreFlat(b, k, x);
    BoundsAreFlat(c, k, y);
    FlatLoosened(b.fields, c.fields);
    RelaxesOnly(b.fields, c.fields, k);
  }

  lemma BoundsReported(b: Json, c: Json, k: Keyword, x: Option<Json>, y: Option<Json>, path: Path)
    requires IsBound(k) && Bounds(b, k, x) && Bounds(c, k, y)
    ensures Reported(b, c, path, Additive, Under(path, k.Name())) <==> Relaxes(k, x, y) && !Relaxes(k, y, x)
  {
    var at := Under(path, k.Name());
    BoundsAreFlat(b, k, x);
    BoundsAreFlat(c, k, y);
    FlatReported(b.fields, c.fields, path, Additive, at);
    RelaxesOnly(c.fields, b.fields, k);
    assert ReportedAt(k, b.fields, c.fields, path, Additive, at) <==> Relaxes(k, x, y) && !Relaxes(k, y, x);
  }

  lemma BoundsReport(b: Json, c: Json, k: Keyword, x: Option<Json>, y: Option<Json>, path: Path)
    requires IsBound(k) && Bounds(b, k, x) && Bounds(c, k, y)
    ensures Compatible(Diff(b, c, path)) <==> Relaxes(k, x, y)
    ensures Has(Diff(b, c, path), Additive, Under(path, k.Name())) <==> Relaxes(k, x, y) && !Relaxes(k, y, x)
  {
    CompatibleExactly(b, c, path);
    BoundsLoosened(b, c, k, x, y);
    ReportExactly(b, c, path, Additive, Under(path, k.Name()));
    BoundsReported(b, c, k, x, y, path);
  }

  /** Some value is newly accepted. */
  ghost predicate Gains(b: Json, c: Json, I: Interp) {
    exists v :: Accepts(c, v, I) && !Accepts(b, v, I)
  }

  lemma GainsExactly(b: Json, c: Json, I: Interp)
    ensures Gains(b, c, I) <==> !Contained(c, b, I)
  {
  }

  /** The report on two bounds breaks exactly when a value is lost, and adds exactly when one is
      gained; idle bounds apart, which break although nothing is lost. */
  lemma BoundsExactly(b: Json, c: Json, k: Keyword, x: Option<Json>, y: Option<Json>, path: Path, I: Interp)
    requires IsBound(k) && Bounds(b, k, x) && Bounds(c, k, y) && Numeric(k, x) && Numeric(k, y)
    ensures Compatible(Diff(b, c, path)) <==> Contained(b, c, I) && !Idle(k, x, y)
    ensures Has(Diff(b, c, path), Additive, Under(path, k.Name())) <==> (Gains(b, c, I) || Idle(k, y, x))
  {
    BoundsReport(b, c, k, x, y, path);
    BoundsContained(b, c, k, x, y, I);
    BoundsContained(c, b, k, y, x, I);
    GainsExactly(b, c, I);
  }
}
