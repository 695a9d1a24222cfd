/** Soundness of the AsyncAPI comparison with the references resolved: a document whose report
    has no break accepts every message payload that the baseline document accepted. */
module DocumentSoundness {
  import opened Json
  import opened Findings
  import opened SchemaDiff
  import opened Schema
  import opened SchemaSoundness
  import opened ContractDiff
  import Pointer
  import Text

  const COMPONENTS := "#/components/schemas/"

  /** A component schema, or the schema of a property inside it. */
  datatype Target = Target(component: string, inside: seq<string>)

  /** The property names of a path that goes through properties only. */
  function PropertyPath(parts: seq<string>): Option<seq<string>> {
    if parts == [] then Some([])
    else if |parts| < 2 || parts[0] != "properties" then None
    else
      match (Pointer.Unescape(parts[1]), PropertyPath(parts[2..]))
      case (Some(name), Some(rest)) => Some([name] + rest)
      case _ => None
  }

  /** The component, or property inside a component, that a `$ref` value names, if it names one. */
  function TargetOf(r: Json): Option<Target> {
    if !r.Str? || !Text.Matches(r.s, COMPONENTS, 0) then None
    else
      var parts := Text.SplitOn(r.s[|COMPONENTS|..], '/');
      if parts == [] then None
      else
        match (Pointer.Unescape(parts[0]), PropertyPath(parts[1..]))
        case (Some(name), Some(inside)) => Some(Target(name, inside))
        case _ => None
  }

  function PathText(inside: seq<string>): string {
    if inside == [] then "" else ['/'] + ("properties" + (['/'] + (Pointer.Escape(inside[0]) + PathText(inside[1..]))))
  }

  function PathParts(inside: seq<string>): seq<string> {
    if inside == [] then [] else ["properties", Pointer.Escape(inside[0])] + PathParts(inside[1..])
  }

  lemma {:induction false} PathSplits(head: string, inside: seq<string>)
    requires '/' !in head
    ensures Text.SplitOn(head + PathText(inside), '/') == [head] + PathParts(inside)
    decreases |inside|
  {
    if inside == [] {
      assert head + "" == head;
      Text.SplitWhole(head, '/');
    } else {
      var token := Pointer.Escape(inside[0]);
      Pointer.EscapeHasNoSlash(inside[0]);
      PathSplits(token, inside[1..]);
      StepSplits("properties", token + PathText(inside[1..]));
      StepSplits(head, "properties" + (['/'] + (token + PathText(inside[1..]))));
      Regroup(head, "properties", token, PathParts(inside[1..]));
    }
  }

  lemma StepSplits(head: string, rest: string)
    requires '/' !in head
    ensures Text.SplitOn(head + (['/'] + rest), '/') == [head] + Text.SplitOn(rest, '/')
  {
    Associate(head, rest);
    Text.SplitFirst(head, rest, '/');
  }

  lemma Associate(head: string, rest: string)
    ensures head + (['/'] + rest) == head + ['/'] + rest
  {
  }

  lemma Regroup(head: string, word: string, token: string, parts: seq<string>)
    ensures [head] + ([word] + ([token] + parts)) == [head] + ([word, token] + parts)
  {
  }

  lemma {:induction false} PathReadBack(inside: seq<string>)
    ensures PropertyPath(PathParts(inside)) == Some(inside)
  {
    if inside != [] {
      Pointer.UnescapeEscape(inside[0]);
      PathReadBack(inside[1..]);
      assert PathParts(inside)[2..] == PathParts(inside[1..]);
      assert inside == [inside[0]] + inside[1..];
    }
  }

  /** Every component, and every property inside one at any depth, has a reference that names it. */
  lemma TargetReadBack(component: string, inside: seq<string>)
    ensures TargetOf(Str(COMPONENTS + (Pointer.Escape(component) + PathText(inside)))) == Some(Target(component, inside))
  {
    var tail := Pointer.Escape(component) + PathText(inside);
    var s := COMPONENTS + tail;
    assert s[|COMPONENTS|..] == tail && s[0..|COMPONENTS|] == COMPONENTS;
    Pointer.EscapeHasNoSlash(component);
    Pointer.UnescapeEscape(component);
    PathSplits(Pointer.Escape(component), inside);
    PathReadBack(inside);
    assert ([Pointer.Escape(component)] + PathParts(inside))[1..] == PathParts(inside);
  }

  /** The schema found along property names. */
  function Reach(s: Json, inside: seq<string>): Option<Json>
    decreases |inside|
  {
    if inside == [] then Some(s)
    else if s.Obj? && inside[0] in Properties(s.fields) then Reach(Properties(s.fields)[inside[0]], inside[1..])
    else None
  }

  function Lookup(schemas: map<string, Json>, t: Target): Option<Json> {
    if t.component in schemas then Reach(schemas[t.component], t.inside) else None
  }

  /** What a reference accepts after following at most `n` references; a reference that is not
      to a component or a property in one keeps the meaning that `rest` gives it. Deeper schemas
      only restrict, and a recursive schema means what all depths agree on. */
  ghost predicate RefAt(schemas: map<string, Json>, rest: Interp, n: nat, r: Json, v: Json)
    decreases n, 1
  {
    match TargetOf(r)
    case None => rest.reference(r, v)
    case Some(target) => ComponentAt(schemas, rest, n, target, v)
  }

  ghost predicate ComponentAt(schemas: map<string, Json>, rest: Interp, n: nat, target: Target, v: Json)
    decreases n, 0
  {
    n == 0 || (Lookup(schemas, target).Some? && Accepts(Lookup(schemas, target).value, v, InterpAt(schemas, rest, n - 1)))
  }

  ghost function InterpAt(schemas: map<string, Json>, rest: Interp, n: nat): Interp
    decreases n, 2
  {
    Interp((r, v) => RefAt(schemas, rest, n, r, v), rest.format)
  }

  /** A payload is accepted when no depth of unfolding refuses it. */
  ghost predicate AcceptsPayload(d: AsyncApi, component: string, v: Json, rest: Interp)
    requires component in d.messages
  {
    forall n: nat :: Accepts(d.messages[component].payload, v, InterpAt(d.schemas, rest, n))
  }

  /** The side conditions, on every pair of schemas that the comparison starts from. */
  ghost predicate GuardedPair(b: Json, c: Json) {
    Guarded(b, c) && PositiveRefs(b)
  }

  ghost predicate GuardedDocuments(b: AsyncApi, c: AsyncApi) {
    && (forall k :: k in b.schemas && k in c.schemas ==> GuardedPair(b.schemas[k], c.schemas[k]))
    && (forall k :: k in b.messages && k in c.messages ==> GuardedPair(b.messages[k].payload, c.messages[k].payload))
  }

  /** A schema that follows another without a break. */
  ghost predicate Follows(b: Json, c: Json) {
    NonBreaking(b, c) && GuardedPair(b, c)
  }

  /** Every component stays and keeps accepting what it did. */
  ghost predicate Kept(b: map<string, Json>, c: map<string, Json>) {
    b.Keys <= c.Keys && forall k :: k in b ==> Follows(b[k], c[k])
  }

  lemma FollowsAccepts(b: Json, c: Json, v: Json, I: Interp, J: Interp)
    requires Follows(b, c) && Below(I, J) && Accepts(b, v, I)
    ensures Accepts(c, v, J)
  {
    NonBreakingSound(b, c, v, I, J);
  }

  lemma PropertyFollows(b: Json, c: Json, p: string)
    requires Follows(b, c) && b.Obj? && p in Properties(b.fields)
    ensures c.Obj? && p in Properties(c.fields) && Follows(Properties(b.fields)[p], Properties(c.fields)[p])
  {
    var x, y := Properties(b.fields)[p], Properties(c.fields)[p];
    assert PropertyChild(b.fields, c.fields, p) in Children(b, c);
    assert x in Positives(b);
  }

  /** Along property names a schema that follows another keeps following it. */
  lemma {:induction false} ReachFollows(b: Json, c: Json, inside: seq<string>)
    requires Follows(b, c) && Reach(b, inside).Some?
    ensures Reach(c, inside).Some? && Follows(Reach(b, inside).value, Reach(c, inside).value)
    decreases |inside|
  {
    if inside != [] {
      PropertyFollows(b, c, inside[0]);
      ReachFollows(Properties(b.fields)[inside[0]], Properties(c.fields)[inside[0]], inside[1..]);
    }
  }

  lemma KeptAccepts(b: map<string, Json>, c: map<string, Json>, target: Target, v: Json, I: Interp, J: Interp)
    requires Kept(b, c) && Below(I, J) && Lookup(b, target).Some? && Accepts(Lookup(b, target).value, v, I)
    ensures Lookup(c, target).Some? && Accepts(Lookup(c, target).value, v, J)
  {
    ReachFollows(b[target.component], c[target.component], target.inside);
    FollowsAccepts(Lookup(b, target).value, Lookup(c, target).value, v, I, J);
  }

  lemma ComponentsKept(b: map<string, Json>, c: map<string, Json>)
    requires Compatible(SchemasDiff(b, c))
    requires forall k :: k in b && k in c ==> GuardedPair(b[k], c[k])
    ensures Kept(b, c)
  {
    KeyedCompatible(b, c, SchemaRemoved, SchemaAdded, SchemaAt);
    forall k | k in b ensures Follows(b[k], c[k]) {
      assert Compatible(SchemaAt(k, b[k], c[k]));
      CompatibleIffNonBreaking(b[k], c[k], SchemaPath(k));
    }
  }

  lemma ComponentCarried(b: map<string, Json>, c: map<string, Json>, rest: Interp, n: nat, target: Target, v: Json)
    requires Kept(b, c) && n > 0 && Below(InterpAt(b, rest, n - 1), InterpAt(c, rest, n - 1))
    requires ComponentAt(b, rest, n, target, v)
    ensures ComponentAt(c, rest, n, target, v)
  {
    KeptAccepts(b, c, target, v, InterpAt(b, rest, n - 1), InterpAt(c, rest, n - 1));
  }

  lemma ReferenceCarried(b: map<string, Json>, c: map<string, Json>, rest: Interp, n: nat, r: Json, v: Json)
    requires Kept(b, c) && (n > 0 ==> Below(InterpAt(b, rest, n - 1), InterpAt(c, rest, n - 1)))
    requires RefAt(b, rest, n, r, v)
    ensures RefAt(c, rest, n, r, v)
  {
    match TargetOf(r)
    case None =>
    case Some(target) => if n > 0 { ComponentCarried(b, c, rest, n, target, v); }
  }

  /** At every depth the references of the candidate mean at least those of the baseline. */
  lemma {:induction false} ReferencesGrow(b: map<string, Json>, c: map<string, Json>, rest: Interp, n: nat)
    requires Kept(b, c)
    ensures Below(InterpAt(b, rest, n), InterpAt(c, rest, n))
    decreases n
  {
    if n > 0 { ReferencesGrow(b, c, rest, n - 1); }
    forall r, v | RefAt(b, rest, n, r, v) ensures RefAt(c, rest, n, r, v) {
      ReferenceCarried(b, c, rest, n, r, v);
    }
  }

  lemma MessagesKept(b: AsyncApi, c: AsyncApi, component: string)
    requires component in b.messages && Compatible(DocumentDiff(b, c))
    ensures component in c.messages && NonBreaking(b.messages[component].payload, c.messages[component].payload)
  {
    assert MessagesDiff(b.messages, c.messages) <= DocumentDiff(b, c);
    KeyedCompatible(b.messages, c.messages, MessageRemoved, MessageAdded, MessageAt);
    var x, y, path := b.messages[component].payload, c.messages[component].payload, Part(MessagePath(component), PayloadField);
    assert Diff(x, y, path) <= MessageAt(component, b.messages[component], c.messages[component]);
    CompatibleIffNonBreaking(x, y, path);
  }

  /** Every public message stays, and accepts every payload it accepted. */
  lemma DocumentSound(b: AsyncApi, c: AsyncApi, component: string, v: Json, rest: Interp)
    requires Compatible(DocumentDiff(b, c)) && GuardedDocuments(b, c)
    requires component in b.messages && AcceptsPayload(b, component, v, rest)
    ensures component in c.messages && AcceptsPayload(c, component, v, rest)
  {
    MessagesKept(b, c, component);
    assert SchemasDiff(b.schemas, c.schemas) <= DocumentDiff(b, c);
    ComponentsKept(b.schemas, c.schemas);
    forall n: nat ensures Accepts(c.messages[component].payload, v, InterpAt(c.schemas, rest, n)) {
      ReferencesGrow(b.schemas, c.schemas, rest, n);
      NonBreakingSound(b.messages[component].payload, c.messages[component].payload, v,
                       InterpAt(b.schemas, rest, n), InterpAt(c.schemas, rest, n));
    }
  }
}
