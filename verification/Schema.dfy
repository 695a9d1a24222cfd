/** What a JSON Schema accepts, for the keywords that the comparison looks at. The definition
    follows the keywords of JSON Schema 2020-12 and uses none of the comparison's verdicts. */
module Schema {
  import opened Json
  import opened SchemaDiff

  /** The meaning of the parts the comparison leaves opaque: what a reference accepts, and
      what `pattern`, `format` and `multipleOf` accept. */
  datatype Interp = Interp(reference: (Json, Json) -> bool, format: (Keyword, Json, Json) -> bool)

  /** Equality of instances: numbers by value, not by their text. */
  ghost predicate Same(v: Json, w: Json)
    decreases v
  {
    match (v, w)
    case (Num(_, x), Num(_, y)) => x == y
    case (Arr(xs), Arr(ys)) => |xs| == |ys| && forall i :: 0 <= i < |xs| ==> Same(xs[i], ys[i])
    case (Obj(m), Obj(n)) => m.Keys == n.Keys && forall k :: k in m ==> Same(m[k], n[k])
    case _ => v == w
  }

  predicate HasType(v: Json, name: string) {
    match v
    case Null => name == "null"
    case Bool(_) => name == "boolean"
    case Num(_, x) => name == "number" || (name == "integer" && x == x.Floor as real)
    case Str(_) => name == "string"
    case Arr(_) => name == "array"
    case Obj(_) => name == "object"
  }

  ghost predicate TypeOk(types: Json, v: Json) {
    match types
    case Str(name) => HasType(v, name)
    case Arr(xs) => exists i :: 0 <= i < |xs| && xs[i].Str? && HasType(v, xs[i].s)
    case _ => true
  }

  ghost predicate EnumOk(values: Json, v: Json) {
    values.Arr? ==> exists i :: 0 <= i < |values.items| && Same(values.items[i], v)
  }

  /** The quantity a bound keyword speaks of, when it applies to the instance. */
  function Measure(k: Keyword, v: Json): Option<real> {
    match k
    case Minimum | ExclusiveMinimum | Maximum | ExclusiveMaximum => if v.Num? then Some(v.value) else None
    case MinLength | MaxLength => if v.Str? then Some(|v.s| as real) else None
    case MinItems | MaxItems => if v.Arr? then Some(|v.items| as real) else None
    case MinProperties | MaxProperties => if v.Obj? then Some(|v.fields| as real) else None
    case _ => None
  }

  predicate BoundOk(k: Keyword, bound: Json, v: Json) {
    bound.Num? && Measure(k, v).Some? ==>
      var x := Measure(k, v).value;
      match k
      case ExclusiveMinimum => x > bound.value
      case ExclusiveMaximum => x < bound.value
      case _ => if k.LowerBound() then x >= bound.value else x <= bound.value
  }

  /** The keywords that do not mention another schema. */
  ghost predicate FlatKeywordOk(k: Keyword, w: Json, v: Json, I: Interp) {
    match k
    case Type => TypeOk(w, v)
    case Enum => EnumOk(w, v)
    case Const => Same(w, v)
    case Ref => I.reference(w, v)
    case Pattern | Format | MultipleOf => I.format(k, w, v)
    case AnyOf | OneOf | AllOf | Not | Items | Additional => true
    case _ => BoundOk(k, w, v)
  }

  ghost predicate RequiredOk(o: Fields, v: Json) {
    match Get(o, "required")
    case Some(Arr(xs)) => v.Obj? ==> forall i :: 0 <= i < |xs| && xs[i].Str? ==> xs[i].s in v.fields
    case _ => true
  }

  ghost predicate FlatOk(o: Fields, v: Json, I: Interp) {
    RequiredOk(o, v) && forall k: Keyword :: At(o, k).Some? ==> FlatKeywordOk(k, At(o, k).value, v, I)
  }

  /** The branches of a composition keyword. */
  function Branches(s: Json, k: Keyword): (r: Option<seq<Json>>)
    requires s.Obj?
    ensures r.Some? ==> forall i :: 0 <= i < |r.value| ==> r.value[i] < s
  {
    match At(s.fields, k)
    case Some(Arr(xs)) => Some(xs)
    case _ => None
  }

  /** The schema for an object member: its property, or else `additionalProperties`. */
  function MemberSchema(s: Json, key: string): (r: Json)
    requires s.Obj?
    ensures r.Bool? || r < s
  {
    if key in Properties(s.fields) then
      assert Get(s.fields, "properties").Some?;
      Properties(s.fields)[key]
    else
      var ap := At(s.fields, Additional);
      if Closed(ap) then Bool(false) else if IsObject(ap) then ap.value else Bool(true)
  }

  ghost predicate Accepts(s: Json, v: Json, I: Interp)
    decreases s, 2
  {
    match s
    case Bool(b) => b
    case Obj(o) =>
      && FlatOk(o, v, I)
      && AnyOfOk(s, v, I) && OneOfOk(s, v, I) && AllOfOk(s, v, I) && NotOk(s, v, I)
      && ItemsOk(s, v, I) && MembersOk(s, v, I)
    case _ => true
  }

  ghost predicate AnyOfOk(s: Json, v: Json, I: Interp)
    requires s.Obj?
    decreases s, 0
  {
    match Branches(s, AnyOf)
    case Some(xs) => exists i :: 0 <= i < |xs| && Accepts(xs[i], v, I)
    case None => true
  }

  ghost predicate OneOfOk(s: Json, v: Json, I: Interp)
    requires s.Obj?
    decreases s, 0
  {
    match Branches(s, OneOf)
    case Some(xs) => exists i :: 0 <= i < |xs| && Accepts(xs[i], v, I)
                              && forall j :: 0 <= j < |xs| && Accepts(xs[j], v, I) ==> j == i
    case None => true
  }

  ghost predicate AllOfOk(s: Json, v: Json, I: Interp)
    requires s.Obj?
    decreases s, 0
  {
    match Branches(s, AllOf)
    case Some(xs) => forall i :: 0 <= i < |xs| ==> Accepts(xs[i], v, I)
    case None => true
  }

  ghost predicate NotOk(s: Json, v: Json, I: Interp)
    requires s.Obj?
    decreases s, 0
  {
    match At(s.fields, Not)
    case Some(t) => assert t < s; !Accepts(t, v, I)
    case None => true
  }

  ghost predicate ItemsOk(s: Json, v: Json, I: Interp)
    requires s.Obj?
    decreases s, 0
  {
    match At(s.fields, Items)
    case Some(t) => assert t < s; v.Arr? ==> forall i :: 0 <= i < |v.items| ==> Accepts(t, v.items[i], I)
    case None => true
  }

  ghost predicate MembersOk(s: Json, v: Json, I: Interp)
    requires s.Obj?
    decreases s, 1
  {
    v.Obj? ==> forall k :: k in v.fields ==> MemberOk(s, k, v.fields[k], I)
  }

  ghost predicate MemberOk(s: Json, key: string, x: Json, I: Interp)
    requires s.Obj?
    decreases s, 0
  {
    var t := MemberSchema(s, key);
    if t.Bool? then t.b else Accepts(t, x, I)
  }
}
