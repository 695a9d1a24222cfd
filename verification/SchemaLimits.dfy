/** Where a report without breaks is not enough, and exactly when it is: properties added to an
    object that is not closed, and alternatives added to or repeated in a `oneOf`. */
module SchemaLimits {
  import opened Json
  import opened Seqs
  import opened Notices
  import opened Findings
  import opened SchemaDiff
  import opened Schema
  import opened SchemaSoundness
  import opened SchemaOrder

  /** A schema that says nothing but `properties` and `additionalProperties`. */
  ghost predicate PlainObject(s: Json) {
    s.Obj? && Get(s.fields, "required") == None && forall k: Keyword :: k != Additional ==> At(s.fields, k) == None
  }

  lemma PlainObjectAccepts(s: Json, v: Json, I: Interp)
    requires PlainObject(s)
    ensures Accepts(s, v, I) == MembersOk(s, v, I)
  {
  }

  /** The candidate is the baseline with one more property. */
  ghost predicate AddsProperty(b: Json, c: Json, p: string) {
    && PlainObject(b) && PlainObject(c) && p !in Properties(b.fields) && p in Properties(c.fields)
    && Properties(c.fields) == Properties(b.fields)[p := Properties(c.fields)[p]]
    && At(b.fields, Additional) == At(c.fields, Additional)
  }

  /** Everything the baseline accepts, the candidate accepts. */
  ghost predicate Contained(b: Json, c: Json, I: Interp) {
    forall v :: Accepts(b, v, I) ==> Accepts(c, v, I)
  }

  /** The same, of the values that may stand under one name. */
  ghost predicate MemberContained(b: Json, c: Json, p: string, I: Interp)
    requires b.Obj? && c.Obj?
  {
    forall x :: MemberOk(b, p, x, I) ==> MemberOk(c, p, x, I)
  }

  /** Adding a property never breaks; it is sound exactly when every value that the baseline
      lets through under that name is one that the candidate lets through. */
  lemma AddedPropertySoundExactly(b: Json, c: Json, p: string, path: Path, I: Interp)
    requires AddsProperty(b, c, p)
    ensures Compatible(Diff(b, c, path))
    ensures Contained(b, c, I) <==> MemberContained(b, c, p, I)
  {
    AdditionCompatible(b, c, p, path);
    if Contained(b, c, I) { NeedsMember(b, c, p, I); }
    if MemberContained(b, c, p, I) { MemberSuffices(b, c, p, I); }
  }

  lemma NeedsMember(b: Json, c: Json, p: string, I: Interp)
    requires AddsProperty(b, c, p) && Contained(b, c, I)
    ensures MemberContained(b, c, p, I)
  {
    forall x | MemberOk(b, p, x, I) ensures MemberOk(c, p, x, I) {
      LoneMember(b, p, x, I);
      LoneMember(c, p, x, I);
    }
  }

  lemma MemberSuffices(b: Json, c: Json, p: string, I: Interp)
    requires AddsProperty(b, c, p) && MemberContained(b, c, p, I)
    ensures Contained(b, c, I)
  {
    forall v | Accepts(b, v, I) ensures Accepts(c, v, I) {
      OtherMembersKept(b, c, p, v, I);
    }
  }

  lemma LoneMember(s: Json, p: string, x: Json, I: Interp)
    requires PlainObject(s)
    ensures Accepts(s, Obj(map[p := x]), I) <==> MemberOk(s, p, x, I)
  {
    var v := Obj(map[p := x]);
    PlainObjectAccepts(s, v, I);
    assert p in v.fields && v.fields[p] == x;
  }

  lemma OtherMembersKept(b: Json, c: Json, p: string, v: Json, I: Interp)
    requires AddsProperty(b, c, p) && Accepts(b, v, I)
    requires MemberContained(b, c, p, I)
    ensures Accepts(c, v, I)
  {
    PlainObjectAccepts(b, v, I);
    PlainObjectAccepts(c, v, I);
    forall k, x | MemberOk(b, k, x, I) ensures MemberOk(c, k, x, I) {
      if k != p { SameMemberSchema(b, c, p, k); }
    }
  }

  lemma SameMemberSchema(b: Json, c: Json, p: string, k: string)
    requires AddsProperty(b, c, p) && k != p
    ensures MemberSchema(b, k) == MemberSchema(c, k)
  {
  }

  lemma AdditionCompatible(b: Json, c: Json, p: string, path: Path)
    requires AddsProperty(b, c, p)
    ensures Compatible(Diff(b, c, path))
  {
    CompatibleIffNonBreaking(b, c, path);
    forall k: Keyword ensures KeywordVerdict(k, At(b.fields, k), At(c.fields, k)) == Silent {
      KeywordSame(k, At(b.fields, k));
    }
    forall ch | ch in Children(b, c) ensures NonBreaking(ch.base, ch.cand) {
      SameChild(b, c, p, ch);
      Reflexive(ch.base, path);
      CompatibleIffNonBreaking(ch.base, ch.base, path);
    }
  }

  lemma SameChild(b: Json, c: Json, p: string, ch: Child)
    requires AddsProperty(b, c, p) && ch in Children(b, c)
    ensures ch.base == ch.cand
  {
  }

  /** For an open object the condition fails as soon as the new schema refuses some value. */
  lemma OpenAdditionLosesValues(b: Json, c: Json, p: string, x: Json, path: Path, I: Interp)
    requires AddsProperty(b, c, p) && Open(At(b.fields, Additional)) && !MemberOk(c, p, x, I)
    ensures Compatible(Diff(b, c, path)) && !Contained(b, c, I)
  {
    AddedPropertySoundExactly(b, c, p, path, I);
    assert MemberOk(b, p, x, I);
  }

  /** A schema that says nothing but one keyword. */
  ghost predicate Says(s: Json, k: Keyword, w: Json) {
    && s.Obj? && Get(s.fields, "required") == None && Properties(s.fields) == map[]
    && At(s.fields, k) == Some(w) && forall j: Keyword :: j != k ==> At(s.fields, j) == None
  }

  ghost predicate PlainOneOf(s: Json, xs: seq<Json>) {
    Says(s, OneOf, Arr(xs))
  }

  lemma SaysMembers(s: Json, k: Keyword, w: Json, v: Json, I: Interp)
    requires Says(s, k, w) && k != Additional
    ensures MembersOk(s, v, I)
  {
    forall key, x ensures MemberOk(s, key, x, I) {
      assert MemberSchema(s, key) == Bool(true);
    }
  }

  lemma PlainOneOfAccepts(s: Json, xs: seq<Json>, v: Json, I: Interp)
    requires PlainOneOf(s, xs)
    ensures Accepts(s, v, I) == OneOfOk(s, v, I)
  {
    SaysMembers(s, OneOf, Arr(xs), v, I);
    assert FlatOk(s.fields, v, I);
    assert AnyOfOk(s, v, I) && AllOfOk(s, v, I) && NotOk(s, v, I) && ItemsOk(s, v, I);
  }

  lemma OneMoreMember(xs: seq<Json>, t: Json)
    ensures Elements(xs) <= Elements(xs + [t])
  {
    forall e | e in Elements(xs) ensures e in Elements(xs + [t]) {
      var i :| 0 <= i < |xs| && xs[i] == e;
      assert (xs + [t])[i] == e;
    }
  }

  lemma AlternativeVerdict(k: Keyword, b: Json, c: Json, xs: seq<Json>, t: Json)
    requires PlainOneOf(b, xs) && PlainOneOf(c, xs + [t])
    ensures KeywordVerdict(k, At(b.fields, k), At(c.fields, k)).Ok()
  {
    OneMoreMember(xs, t);
    if k != OneOf { KeywordSame(k, None); }
  }

  lemma PlainChildren(b: Json, c: Json, xs: seq<Json>, ys: seq<Json>)
    requires PlainOneOf(b, xs) && PlainOneOf(c, ys)
    ensures Children(b, c) == {}
  {
    assert At(b.fields, Items) == None && At(b.fields, Additional) == None;
    assert Properties(b.fields).Keys == {};
  }

  lemma AlternativeLocally(b: Json, c: Json, xs: seq<Json>, t: Json)
    requires PlainOneOf(b, xs) && PlainOneOf(c, xs + [t])
    ensures LocallyOk(b.fields, c.fields)
  {
    forall k: Keyword ensures KeywordVerdict(k, At(b.fields, k), At(c.fields, k)).Ok() {
      AlternativeVerdict(k, b, c, xs, t);
    }
  }

  lemma AlternativeCompatible(b: Json, c: Json, xs: seq<Json>, t: Json, path: Path)
    requires PlainOneOf(b, xs) && PlainOneOf(c, xs + [t])
    ensures Compatible(Diff(b, c, path))
  {
    CompatibleIffNonBreaking(b, c, path);
    AlternativeLocally(b, c, xs, t);
    PlainChildren(b, c, xs, xs + [t]);
  }

  /** No value of the first schema is a value of the second. */
  ghost predicate Apart(b: Json, t: Json, I: Interp) {
    forall v :: Accepts(b, v, I) ==> !Accepts(t, v, I)
  }

  /** Adding an alternative to `oneOf`, an old one again or a new one, never breaks; it is
      sound exactly when the addition accepts nothing that the baseline accepts. */
  lemma AddedAlternativeSoundExactly(b: Json, c: Json, xs: seq<Json>, t: Json, path: Path, I: Interp)
    requires PlainOneOf(b, xs) && PlainOneOf(c, xs + [t])
    ensures Compatible(Diff(b, c, path))
    ensures Contained(b, c, I) <==> Apart(b, t, I)
  {
    AlternativeCompatible(b, c, xs, t, path);
    AlternativeContained(b, c, xs, t, I);
  }

  lemma AlternativeContained(b: Json, c: Json, xs: seq<Json>, t: Json, I: Interp)
    requires PlainOneOf(b, xs) && PlainOneOf(c, xs + [t])
    ensures Contained(b, c, I) <==> Apart(b, t, I)
  {
    forall v | Accepts(b, v, I) ensures Accepts(c, v, I) <==> !Accepts(t, v, I) {
      PlainOneOfAccepts(b, xs, v, I);
      PlainOneOfAccepts(c, xs + [t], v, I);
      OneMore(b, c, xs, t, v, I);
    }
  }

  lemma OneMore(b: Json, c: Json, xs: seq<Json>, t: Json, v: Json, I: Interp)
    requires PlainOneOf(b, xs) && PlainOneOf(c, xs + [t]) && OneOfOk(b, v, I)
    ensures OneOfOk(c, v, I) <==> !Accepts(t, v, I)
  {
    var ys := xs + [t];
    assert Branches(b, OneOf) == Some(xs) && Branches(c, OneOf) == Some(ys);
    var i :| 0 <= i < |xs| && Accepts(xs[i], v, I) && forall j :: 0 <= j < |xs| && Accepts(xs[j], v, I) ==> j == i;
    assert ys[i] == xs[i] && ys[|xs|] == t;
    if !Accepts(t, v, I) {
      forall j | 0 <= j < |ys| && Accepts(ys[j], v, I) ensures j == i {
        assert j < |xs| ==> xs[j] == ys[j];
      }
    }
  }

  lemma PlainReferenceAccepts(s: Json, r: Json, v: Json, I: Interp)
    requires Says(s, Ref, r)
    ensures Accepts(s, v, I) == I.reference(r, v)
  {
    SaysMembers(s, Ref, r, v, I);
    SaysNoSub(s, Ref, r, v, I);
    ReferenceFlat(s, r, v, I);
  }

  lemma ReferenceFlat(s: Json, r: Json, v: Json, I: Interp)
    requires Says(s, Ref, r)
    ensures FlatOk(s.fields, v, I) <==> I.reference(r, v)
  {
    assert FlatKeywordOk(Ref, r, v, I) == I.reference(r, v);
    assert FlatOk(s.fields, v, I) ==> FlatKeywordOk(Ref, At(s.fields, Ref).value, v, I);
  }

  /** The keywords that it does not have say nothing. */
  lemma SaysNoSub(s: Json, k: Keyword, w: Json, v: Json, I: Interp)
    requires Says(s, k, w) && (k == Ref || k == Not)
    ensures AnyOfOk(s, v, I) && OneOfOk(s, v, I) && AllOfOk(s, v, I) && ItemsOk(s, v, I)
    ensures k == Ref ==> NotOk(s, v, I)
  {
  }

  /** Why references must not stand under `not`: the schema does not change, the report is empty,
      and it loses exactly what the reference gains. */
  lemma NegatedReferenceFlips(s: Json, t: Json, r: Json, v: Json, path: Path, I: Interp)
    requires Says(s, Not, t) && Says(t, Ref, r)
    ensures Diff(s, s, path) == {} && (Accepts(s, v, I) <==> !I.reference(r, v))
  {
    Reflexive(s, path);
    SaysMembers(s, Not, t, v, I);
    SaysNoSub(s, Not, t, v, I);
    PlainReferenceAccepts(t, r, v, I);
    NegationAlone(s, t, v, I);
  }

  lemma NegationAlone(s: Json, t: Json, v: Json, I: Interp)
    requires Says(s, Not, t)
    ensures FlatOk(s.fields, v, I) && (NotOk(s, v, I) <==> !Accepts(t, v, I))
  {
  }
}
