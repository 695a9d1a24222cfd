/** Findings of a comparison before they become text, and the laws that comparisons obey. */
module Findings {
  import opened Notices

  datatype ChangeClass = Additive | BehavioralCompatible | Deprecated | Breaking

  /** Where a finding is: an artifact, and names below it. */
  datatype Path = Artifact(file: ContractFile) | Part(whole: Path, field: Field) | Under(parent: Path, token: string)

  /** A contract file, or what it holds. */
  datatype ContractFile = AsyncApiFile | AsyncApiContents | PermissionsContents | CapabilitiesContents | ManifestContents

  /** The fixed fields of the documents. */
  datatype Field =
    | AddressField
    | ApiField
    | ApplicationVersionField
    | AuthModesField
    | AuthRolesField
    | CapabilitiesField
    | ChannelsField
    | CompiledField
    | ComponentsField
    | ContractsField
    | DeprecatedField
    | MaximumSdkVersionField
    | MessageRoutesField
    | MessagesField
    | MinimumSdkVersionField
    | ModulesField
    | NameField
    | PayloadField
    | PermissionsField
    | ProfileField
    | RequiredField
    | RuntimeAvailableField
    | SchemaVersionField
    | SchemasField
    | ServiceKitVersionField
    | ServiceVersionField
    | SseField
    | TransportsField
    | WebsocketField
    | XDirectionField
    | XMessageVersionField

  datatype Finding = Finding(change: ChangeClass, notice: Notice, path: Path)

  /** The verdict of a report, over the set of its findings. */
  ghost predicate Compatible(fs: set<Finding>) {
    forall f :: f in fs ==> f.change != Breaking
  }

  /** Some finding of `fs` breaks at `path`. */
  ghost predicate BreaksAt(fs: set<Finding>, path: Path) {
    exists f :: f in fs && f.path == path && f.change == Breaking
  }

  /** Every addition of `forward` is a break at the same path of `backward`. */
  ghost predicate Mirrors(forward: set<Finding>, backward: set<Finding>) {
    forall f :: f in forward && f.change == Additive ==> BreaksAt(backward, f.path)
  }

  /** Two sets of names compared: what is gone breaks, what is new adds. */
  function NamesDiff<T(==)>(was: set<T>, now: set<T>, gone: T -> Finding, appeared: T -> Finding): set<Finding> {
    (set x | x in was - now :: gone(x)) + (set x | x in now - was :: appeared(x))
  }

  /** A name is reported gone and reported new at the same path. */
  ghost predicate Paired<T(!new)>(gone: T -> Finding, appeared: T -> Finding) {
    forall x :: gone(x).change == Breaking && appeared(x).change == Additive && gone(x).path == appeared(x).path
  }

  lemma NamesCompatible<T(!new)>(was: set<T>, now: set<T>, gone: T -> Finding, appeared: T -> Finding)
    requires Paired(gone, appeared)
    ensures Compatible(NamesDiff(was, now, gone, appeared)) <==> was <= now
  {
    var d := NamesDiff(was, now, gone, appeared);
    if !(was <= now) {
      var x :| x in was && x !in now;
      assert gone(x) in d && gone(x).change == Breaking;
    } else {
      assert was - now == {};
      forall f | f in d ensures f.change != Breaking {
        var x :| x in now - was && f == appeared(x);
      }
    }
  }

  lemma NamesSame<T(!new)>(was: set<T>, gone: T -> Finding, appeared: T -> Finding)
    ensures NamesDiff(was, was, gone, appeared) == {}
  {
  }

  lemma NamesMirror<T(!new)>(was: set<T>, now: set<T>, gone: T -> Finding, appeared: T -> Finding)
    requires Paired(gone, appeared)
    ensures Mirrors(NamesDiff(was, now, gone, appeared), NamesDiff(now, was, gone, appeared))
  {
    forall f | f in NamesDiff(was, now, gone, appeared) && f.change == Additive
      ensures BreaksAt(NamesDiff(now, was, gone, appeared), f.path)
    {
      var x :| x in now - was && f == appeared(x);
      assert gone(x) in NamesDiff(now, was, gone, appeared);
    }
  }

  // ---- Laws of comparisons, on the finding sets of two or three documents

  /** Free of breaks from a to b and from b to c, free of breaks from a to c. */
  ghost predicate Chains(ab: set<Finding>, bc: set<Finding>, ac: set<Finding>) {
    Compatible(ab) && Compatible(bc) ==> Compatible(ac)
  }

  lemma ChainsUnion(ab: set<Finding>, bc: set<Finding>, ac: set<Finding>,
                    ab': set<Finding>, bc': set<Finding>, ac': set<Finding>)
    requires Chains(ab, bc, ac) && Chains(ab', bc', ac')
    ensures Chains(ab + ab', bc + bc', ac + ac')
  {
    if Compatible(ab + ab') && Compatible(bc + bc') {
      assert ab <= ab + ab' && ab' <= ab + ab' && bc <= bc + bc' && bc' <= bc + bc';
    }
  }

  lemma MirrorsUnion(f: set<Finding>, g: set<Finding>, f': set<Finding>, g': set<Finding>)
    requires Mirrors(f, g) && Mirrors(f', g')
    ensures Mirrors(f + f', g + g')
  {
    forall x | x in f + f' && x.change == Additive ensures BreaksAt(g + g', x.path) {
      if x in f {
        var y :| y in g && y.path == x.path && y.change == Breaking;
        assert y in g + g';
      } else {
        var y :| y in g' && y.path == x.path && y.change == Breaking;
        assert y in g + g';
      }
    }
  }

  lemma Chains3(ab: set<Finding>, bc: set<Finding>, ac: set<Finding>, ab1: set<Finding>, bc1: set<Finding>, ac1: set<Finding>,
                ab2: set<Finding>, bc2: set<Finding>, ac2: set<Finding>)
    requires Chains(ab, bc, ac) && Chains(ab1, bc1, ac1) && Chains(ab2, bc2, ac2)
    ensures Chains(ab + ab1 + ab2, bc + bc1 + bc2, ac + ac1 + ac2)
  {
    ChainsUnion(ab, bc, ac, ab1, bc1, ac1);
    ChainsUnion(ab + ab1, bc + bc1, ac + ac1, ab2, bc2, ac2);
  }

  /** Two compatible steps compose exactly when `ok` holds. */
  ghost predicate ChainsIff(ab: set<Finding>, bc: set<Finding>, ac: set<Finding>, ok: bool) {
    Compatible(ab) && Compatible(bc) ==> (Compatible(ac) <==> ok)
  }

  lemma ChainsIffUnion(ab: set<Finding>, bc: set<Finding>, ac: set<Finding>, ok: bool,
                       ab': set<Finding>, bc': set<Finding>, ac': set<Finding>, ok': bool)
    requires ChainsIff(ab, bc, ac, ok) && ChainsIff(ab', bc', ac', ok')
    ensures ChainsIff(ab + ab', bc + bc', ac + ac', ok && ok')
  {
    CompatibleUnion(ab, ab');
    CompatibleUnion(bc, bc');
    CompatibleUnion(ac, ac');
  }

  lemma CompatibleUnion(f: set<Finding>, g: set<Finding>)
    ensures Compatible(f + g) <==> Compatible(f) && Compatible(g)
  {
    assert f <= f + g && g <= f + g;
  }

  lemma ChainsIff4(ab: set<Finding>, bc: set<Finding>, ac: set<Finding>, ok: bool,
                   ab1: set<Finding>, bc1: set<Finding>, ac1: set<Finding>, ok1: bool,
                   ab2: set<Finding>, bc2: set<Finding>, ac2: set<Finding>,
                   ab3: set<Finding>, bc3: set<Finding>, ac3: set<Finding>)
    requires ChainsIff(ab, bc, ac, ok) && ChainsIff(ab1, bc1, ac1, ok1) && Chains(ab2, bc2, ac2) && Chains(ab3, bc3, ac3)
    ensures ChainsIff(ab + ab1 + ab2 + ab3, bc + bc1 + bc2 + bc3, ac + ac1 + ac2 + ac3, ok && ok1)
  {
    ChainsIffUnion(ab, bc, ac, ok, ab1, bc1, ac1, ok1);
    ChainsIffUnion(ab + ab1, bc + bc1, ac + ac1, ok && ok1, ab2, bc2, ac2, true);
    ChainsIffUnion(ab + ab1 + ab2, bc + bc1 + bc2, ac + ac1 + ac2, ok && ok1, ab3, bc3, ac3, true);
  }

  lemma Mirrors3(f: set<Finding>, g: set<Finding>, f1: set<Finding>, g1: set<Finding>, f2: set<Finding>, g2: set<Finding>)
    requires Mirrors(f, g) && Mirrors(f1, g1) && Mirrors(f2, g2)
    ensures Mirrors(f + f1 + f2, g + g1 + g2)
  {
    MirrorsUnion(f, g, f1, g1);
    MirrorsUnion(f + f1, g + g1, f2, g2);
  }

  lemma Mirrors4(f: set<Finding>, g: set<Finding>, f1: set<Finding>, g1: set<Finding>,
                 f2: set<Finding>, g2: set<Finding>, f3: set<Finding>, g3: set<Finding>)
    requires Mirrors(f, g) && Mirrors(f1, g1) && Mirrors(f2, g2) && Mirrors(f3, g3)
    ensures Mirrors(f + f1 + f2 + f3, g + g1 + g2 + g3)
  {
    Mirrors3(f, g, f1, g1, f2, g2);
    MirrorsUnion(f + f1 + f2, g + g1 + g2, f3, g3);
  }

  lemma NamesChain<T(!new)>(a: set<T>, b: set<T>, c: set<T>, gone: T -> Finding, appeared: T -> Finding)
    requires Paired(gone, appeared)
    ensures Chains(NamesDiff(a, b, gone, appeared), NamesDiff(b, c, gone, appeared), NamesDiff(a, c, gone, appeared))
  {
    NamesCompatible(a, b, gone, appeared);
    NamesCompatible(b, c, gone, appeared);
    NamesCompatible(a, c, gone, appeared);
  }

  /** A field that must keep its value, or one whose change is worth a remark. */
  function FieldDiff<T(==)>(b: T, c: T, f: Finding): set<Finding> {
    if b != c then {f} else {}
  }

  /** Entries by key: the keys are compared as names, the common entries one by one. */
  function KeyedDiff<V>(b: map<string, V>, c: map<string, V>, gone: string -> Finding, appeared: string -> Finding,
                        inner: (string, V, V) -> set<Finding>): set<Finding> {
    NamesDiff(b.Keys, c.Keys, gone, appeared) + set k, f | k in b.Keys * c.Keys && f in inner(k, b[k], c[k]) :: f
  }

  lemma KeyedSame<V>(b: map<string, V>, gone: string -> Finding, appeared: string -> Finding,
                     inner: (string, V, V) -> set<Finding>)
    requires forall k :: k in b ==> inner(k, b[k], b[k]) == {}
    ensures KeyedDiff(b, b, gone, appeared, inner) == {}
  {
    NamesSame(b.Keys, gone, appeared);
  }

  lemma KeyedCompatible<V>(b: map<string, V>, c: map<string, V>, gone: string -> Finding, appeared: string -> Finding,
                           inner: (string, V, V) -> set<Finding>)
    requires Paired(gone, appeared)
    ensures Compatible(KeyedDiff(b, c, gone, appeared, inner)) <==>
            b.Keys <= c.Keys && forall k :: k in b && k in c ==> Compatible(inner(k, b[k], c[k]))
  {
    NamesCompatible(b.Keys, c.Keys, gone, appeared);
    var d := KeyedDiff(b, c, gone, appeared, inner);
    if Compatible(d) {
      assert NamesDiff(b.Keys, c.Keys, gone, appeared) <= d;
      forall k | k in b && k in c ensures Compatible(inner(k, b[k], c[k])) {
        assert k in b.Keys * c.Keys;
        assert inner(k, b[k], c[k]) <= d;
      }
    }
  }

  lemma KeyedChain<V>(a: map<string, V>, b: map<string, V>, c: map<string, V>,
                      gone: string -> Finding, appeared: string -> Finding, inner: (string, V, V) -> set<Finding>)
    requires Paired(gone, appeared)
    requires forall k :: k in a && k in b && k in c ==>
               Chains(inner(k, a[k], b[k]), inner(k, b[k], c[k]), inner(k, a[k], c[k]))
    ensures Chains(KeyedDiff(a, b, gone, appeared, inner), KeyedDiff(b, c, gone, appeared, inner),
                   KeyedDiff(a, c, gone, appeared, inner))
  {
    KeyedCompatible(a, b, gone, appeared, inner);
    KeyedCompatible(b, c, gone, appeared, inner);
    KeyedCompatible(a, c, gone, appeared, inner);
  }

  lemma KeyedChainIff<V>(a: map<string, V>, b: map<string, V>, c: map<string, V>, gone: string -> Finding,
                         appeared: string -> Finding, inner: (string, V, V) -> set<Finding>, gaps: set<string>)
    requires Paired(gone, appeared) && gaps <= a.Keys * b.Keys * c.Keys
    requires forall k :: k in a && k in b && k in c ==>
               ChainsIff(inner(k, a[k], b[k]), inner(k, b[k], c[k]), inner(k, a[k], c[k]), k !in gaps)
    ensures ChainsIff(KeyedDiff(a, b, gone, appeared, inner), KeyedDiff(b, c, gone, appeared, inner),
                      KeyedDiff(a, c, gone, appeared, inner), gaps == {})
  {
    KeyedCompatible(a, b, gone, appeared, inner);
    KeyedCompatible(b, c, gone, appeared, inner);
    KeyedCompatible(a, c, gone, appeared, inner);
  }

  lemma KeyedMirror<V>(b: map<string, V>, c: map<string, V>, gone: string -> Finding, appeared: string -> Finding,
                       inner: (string, V, V) -> set<Finding>)
    requires Paired(gone, appeared)
    requires forall k :: k in b && k in c ==> Mirrors(inner(k, b[k], c[k]), inner(k, c[k], b[k]))
    ensures Mirrors(KeyedDiff(b, c, gone, appeared, inner), KeyedDiff(c, b, gone, appeared, inner))
  {
    NamesMirror(b.Keys, c.Keys, gone, appeared);
    var back := KeyedDiff(c, b, gone, appeared, inner);
    forall f | f in KeyedDiff(b, c, gone, appeared, inner) && f.change == Additive ensures BreaksAt(back, f.path) {
      if f in NamesDiff(b.Keys, c.Keys, gone, appeared) {
        var g :| g in NamesDiff(c.Keys, b.Keys, gone, appeared) && g.path == f.path && g.change == Breaking;
        assert g in back;
      } else {
        var k :| k in b.Keys * c.Keys && f in inner(k, b[k], c[k]);
        var g :| g in inner(k, c[k], b[k]) && g.path == f.path && g.change == Breaking;
        assert k in c.Keys * b.Keys;
        assert g in back;
      }
    }
  }
}
