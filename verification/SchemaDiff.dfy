/** The schema comparison of xtask/src/contract_diff.rs: `compare_schema` and the keyword
    comparisons it calls. The findings are a set: the report is sorted and deduplicated
    before anyone reads it, so the order in which they are pushed is not observable. */
module SchemaDiff {
  import opened Json
  import opened Seqs
  import opened Notices
  import opened Findings

  type Fields = map<string, Json>

  /** What the comparison of one keyword says; at most one finding comes of it. */
  datatype Verdict = Silent | Breaks(notice: Notice) | Adds(notice: Notice) {
    predicate Ok() {
      !Breaks?
    }
  }

  function Emit(v: Verdict, path: Path): set<Finding> {
    match v
    case Silent => {}
    case Breaks(notice) => {Finding(Breaking, notice, path)}
    case Adds(notice) => {Finding(Additive, notice, path)}
  }

  function SchemaTypes(value: Option<Json>): Option<set<string>> {
    match value
    case Some(Str(s)) => Some({s})
    case Some(Arr(xs)) => Some(Strings(xs))
    case _ => None
  }

  function StringArraySet(value: Option<Json>): set<string> {
    match value
    case Some(Arr(xs)) => Strings(xs)
    case _ => {}
  }

  /** The members of an array keyword, up to order and repetition. */
  function CanonicalArraySet(value: Option<Json>): Option<set<Json>> {
    match value
    case Some(Arr(xs)) => Some(Elements(xs))
    case _ => None
  }

  /** The declared properties; a schema without the keyword declares none. */
  function Properties(o: Fields): Fields {
    match Get(o, "properties")
    case Some(Obj(m)) => m
    case _ => map[]
  }

  function TypesVerdict(b: Option<set<string>>, c: Option<set<string>>): Verdict {
    match (b, c)
    case (Some(x), Some(y)) =>
      if !(x <= y) then Breaks(TypeNarrowed)
      else if x != y then Adds(TypeWidened)
      else Silent
    case (None, Some(_)) => Breaks(TypeAdded)
    case (Some(_), None) => Adds(TypeRemoved)
    case (None, None) => Silent
  }

  function EnumVerdict(b: Option<set<Json>>, c: Option<set<Json>>): Verdict {
    match (b, c)
    case (Some(x), Some(y)) =>
      if !(x <= y) then Breaks(EnumNarrowed)
      else if x != y then Adds(EnumWidened)
      else Silent
    case (None, Some(_)) => Breaks(EnumAdded)
    case (Some(_), None) => Adds(EnumRemoved)
    case (None, None) => Silent
  }

  /** `anyOf` and `oneOf`. */
  function UnionVerdict(b: Option<set<Json>>, c: Option<set<Json>>): Verdict {
    match (b, c)
    case (Some(x), Some(y)) =>
      if !(x <= y) then Breaks(UnionNarrowed)
      else if x != y then Adds(UnionWidened)
      else Silent
    case (None, Some(_)) => Breaks(UnionAdded)
    case (Some(_), None) => Adds(UnionRemoved)
    case (None, None) => Silent
  }

  function AllOfVerdict(b: Option<set<Json>>, c: Option<set<Json>>): Verdict {
    match (b, c)
    case (Some(x), Some(y)) =>
      if !(y <= x) then Breaks(IntersectionNarrowed)
      else if x != y then Adds(IntersectionRelaxed)
      else Silent
    case (None, Some(_)) => Breaks(IntersectionAdded)
    case (Some(_), None) => Adds(IntersectionRemoved)
    case (None, None) => Silent
  }

  function ConstVerdict(b: Option<Json>, c: Option<Json>): Verdict {
    match (b, c)
    case (Some(x), Some(y)) => if x != y then Breaks(ConstChanged) else Silent
    case (None, Some(_)) => Breaks(ConstAdded)
    case (Some(_), None) => Adds(ConstRemoved)
    case (None, None) => Silent
  }

  function NotVerdict(b: Option<Json>, c: Option<Json>): Verdict {
    match (b, c)
    case (Some(x), Some(y)) =>
      if x != y then Breaks(NegationChanged) else Silent
    case (None, Some(_)) => Breaks(NegationAdded)
    case (Some(_), None) => Adds(NegationRemoved)
    case (None, None) => Silent
  }

  /** `pattern`, `format` and `multipleOf`. */
  function FormatVerdict(b: Option<Json>, c: Option<Json>): Verdict {
    match (b, c)
    case (Some(x), Some(y)) =>
      if x != y then Breaks(FormatChanged) else Silent
    case (None, Some(_)) => Breaks(FormatAdded)
    case (Some(_), None) => Adds(FormatRemoved)
    case (None, None) => Silent
  }

  function ReferenceVerdict(b: Option<Json>, c: Option<Json>): Verdict {
    if b != c then Breaks(ReferenceChanged) else Silent
  }

  function ItemsVerdict(b: Option<Json>, c: Option<Json>): Verdict {
    match (b, c)
    case (Some(_), None) => Adds(ItemsRemoved)
    case (None, Some(_)) => Breaks(ItemsAdded)
    case _ => Silent
  }

  function LowerBoundVerdict(b: Option<real>, c: Option<real>): Verdict {
    match (b, c)
    case (Some(x), Some(y)) =>
      if y > x then Breaks(LowerStricter)
      else if y < x then Adds(LowerRelaxed)
      else Silent
    case (None, Some(_)) => Breaks(LowerAdded)
    case (Some(_), None) => Adds(LowerRemoved)
    case (None, None) => Silent
  }

  function UpperBoundVerdict(b: Option<real>, c: Option<real>): Verdict {
    match (b, c)
    case (Some(x), Some(y)) =>
      if y < x then Breaks(UpperStricter)
      else if y > x then Adds(UpperRelaxed)
      else Silent
    case (None, Some(_)) => Breaks(UpperAdded)
    case (Some(_), None) => Adds(UpperRemoved)
    case (None, None) => Silent
  }

  /** `additionalProperties` absent or true: anything goes. */
  predicate Open(ap: Option<Json>) {
    ap.None? || (ap.value.Bool? && ap.value.b)
  }

  predicate Closed(ap: Option<Json>) {
    ap.Some? && ap.value.Bool? && !ap.value.b
  }

  predicate IsObject(ap: Option<Json>) {
    ap.Some? && ap.value.Obj?
  }

  /** `compare_additional_properties`; two schema objects are compared as children instead. */
  function AdditionalVerdict(b: Option<Json>, c: Option<Json>): Verdict {
    if Closed(b) && Open(c) then
      Adds(AdditionalPermitted)
    else if Open(b) && Closed(c) then
      Breaks(AdditionalForbidden)
    else if IsObject(b) && Open(c) then
      Adds(AdditionalUnconstrained)
    else if Open(b) && IsObject(c) then
      Breaks(AdditionalConstrained)
    else if Closed(b) && IsObject(c) then
      Adds(AdditionalPermittedConstrained)
    else if IsObject(b) && Closed(c) then
      Breaks(AdditionalForbidden)
    else if IsObject(b) && IsObject(c) then Silent
    else if b.Some? && c.Some? && b != c then
      Breaks(AdditionalChanged)
    else Silent
  }

  /** The keywords that are compared value against value. */
  datatype Keyword =
    | Type | Enum | Const | Ref | AnyOf | OneOf | AllOf | Not | Items | Additional
    | Pattern | Format | MultipleOf
    | Minimum | ExclusiveMinimum | MinLength | MinItems | MinProperties
    | Maximum | ExclusiveMaximum | MaxLength | MaxItems | MaxProperties
  {
    function Name(): string {
      match this
      case Type => "type"
      case Enum => "enum"
      case Const => "const"
      case Ref => "$ref"
      case AnyOf => "anyOf"
      case OneOf => "oneOf"
      case AllOf => "allOf"
      case Not => "not"
      case Items => "items"
      case Additional => "additionalProperties"
      case Pattern => "pattern"
      case Format => "format"
      case MultipleOf => "multipleOf"
      case Minimum => "minimum"
      case ExclusiveMinimum => "exclusiveMinimum"
      case MinLength => "minLength"
      case MinItems => "minItems"
      case MinProperties => "minProperties"
      case Maximum => "maximum"
      case ExclusiveMaximum => "exclusiveMaximum"
      case MaxLength => "maxLength"
      case MaxItems => "maxItems"
      case MaxProperties => "maxProperties"
    }

    predicate LowerBound() {
      Minimum? || ExclusiveMinimum? || MinLength? || MinItems? || MinProperties?
    }
  }

  function At(o: Fields, k: Keyword): Option<Json> {
    Get(o, k.Name())
  }

  function KeywordVerdict(k: Keyword, b: Option<Json>, c: Option<Json>): Verdict {
    match k
    case Type => TypesVerdict(SchemaTypes(b), SchemaTypes(c))
    case Enum => EnumVerdict(CanonicalArraySet(b), CanonicalArraySet(c))
    case Const => ConstVerdict(b, c)
    case Ref => ReferenceVerdict(b, c)
    case AnyOf | OneOf => UnionVerdict(CanonicalArraySet(b), CanonicalArraySet(c))
    case AllOf => AllOfVerdict(CanonicalArraySet(b), CanonicalArraySet(c))
    case Not => NotVerdict(b, c)
    case Items => ItemsVerdict(b, c)
    case Additional => AdditionalVerdict(b, c)
    case Pattern | Format | MultipleOf => FormatVerdict(b, c)
    case Minimum | ExclusiveMinimum | MinLength | MinItems | MinProperties => LowerBoundVerdict(AsReal(b), AsReal(c))
    case Maximum | ExclusiveMaximum | MaxLength | MaxItems | MaxProperties => UpperBoundVerdict(AsReal(b), AsReal(c))
  }

  function KeywordDiff(k: Keyword, b: Fields, c: Fields, path: Path): set<Finding> {
    Emit(KeywordVerdict(k, At(b, k), At(c, k)), Under(path, k.Name()))
  }

  function KeywordsDiff(b: Fields, c: Fields, path: Path): set<Finding> {
    set k: Keyword, f | f in KeywordDiff(k, b, c, path) :: f
  }

  function Required(o: Fields): set<string> {
    StringArraySet(Get(o, "required"))
  }

  function NowRequired(p: string, path: Path): Finding {
    Finding(Breaking, PropertyNowRequired, Under(Under(path, "required"), p))
  }

  function NowOptional(p: string, path: Path): Finding {
    Finding(Additive, PropertyNowOptional, Under(Under(path, "required"), p))
  }

  function PropertyRemoved(p: string, path: Path): Finding {
    Finding(Breaking, PropertyGone, Under(Under(path, "properties"), p))
  }

  function PropertyAdded(p: string, path: Path): Finding {
    Finding(Additive, PropertyNew, Under(Under(path, "properties"), p))
  }

  function RequiredDiff(b: Fields, c: Fields, path: Path): set<Finding> {
    NamesDiff(Required(c), Required(b), p => NowRequired(p, path), p => NowOptional(p, path))
  }

  /** Properties present on one side only; those on both sides are compared as children. */
  function PropertySetDiff(b: Fields, c: Fields, path: Path): set<Finding> {
    NamesDiff(Properties(b).Keys, Properties(c).Keys, p => PropertyRemoved(p, path), p => PropertyAdded(p, path))
  }

  /** The findings of one pair of schema objects, leaving out their sub-schemas. */
  function LocalDiff(b: Fields, c: Fields, path: Path): set<Finding> {
    RequiredDiff(b, c, path) + PropertySetDiff(b, c, path) + KeywordsDiff(b, c, path)
  }

  /** How the comparison descends from a schema to a sub-schema. */
  datatype Step = IntoProperty(name: string) | IntoItems | IntoAdditional {
    function From(path: Path): Path {
      match this
      case IntoProperty(name) => Under(Under(path, "properties"), name)
      case IntoItems => Under(path, "items")
      case IntoAdditional => Under(path, "additionalProperties")
    }
  }

  /** A pair of sub-schemas that the comparison descends into, and where it is. */
  datatype Child = Child(base: Json, cand: Json, step: Step)

  function PropertyChild(b: Fields, c: Fields, p: string): Child
    requires p in Properties(b) && p in Properties(c)
  {
    Child(Properties(b)[p], Properties(c)[p], IntoProperty(p))
  }

  function Children(b: Json, c: Json): (r: set<Child>)
    ensures forall ch :: ch in r ==> ch.base < b && ch.cand < c
  {
    if b.Obj? && c.Obj? then
      var bi, ci, ba, ca := At(b.fields, Items), At(c.fields, Items), At(b.fields, Additional), At(c.fields, Additional);
      (set p | p in Properties(b.fields).Keys * Properties(c.fields).Keys :: PropertyChild(b.fields, c.fields, p))
      + (if bi.Some? && ci.Some? then {Child(bi.value, ci.value, IntoItems)} else {})
      + (if IsObject(ba) && IsObject(ca) then {Child(ba.value, ca.value, IntoAdditional)} else {})
    else {}
  }

  /** `compare_schema`. */
  function Diff(b: Json, c: Json, path: Path): set<Finding>
    decreases b
  {
    if b.Obj? && c.Obj? then
      LocalDiff(b.fields, c.fields, path)
      + set ch, f | ch in Children(b, c) && f in Diff(ch.base, ch.cand, ch.step.From(path)) :: f
    else if b != c then {Finding(Breaking, ShapeChanged, path)}
    else {}
  }

  // ---- The verdict without paths, codes and messages

  predicate LocallyOk(b: Fields, c: Fields) {
    && Required(c) <= Required(b)
    && Properties(b).Keys <= Properties(c).Keys
    && forall k: Keyword :: KeywordVerdict(k, At(b, k), At(c, k)).Ok()
  }

  /** No break anywhere in the comparison. */
  predicate NonBreaking(b: Json, c: Json)
    decreases b
  {
    if b.Obj? && c.Obj?
    then LocallyOk(b.fields, c.fields) && forall ch :: ch in Children(b, c) ==> NonBreaking(ch.base, ch.cand)
    else b == c
  }
}
