/** The report of a contract comparison as text, and its canonical form
    (xtask/src/contract_diff.rs). */
module Report {
  import opened Notices
  import opened Findings
  import opened Sorting
  import opened Seqs
  import Pointer

  datatype Severity = Info | Warning | Error

  function SeverityOf(c: ChangeClass): Severity {
    match c
    case Additive => Info
    case BehavioralCompatible | Deprecated => Warning
    case Breaking => Error
  }

  /** A finding as it is printed and sorted. */
  datatype Line = Line(severity: Severity, change: ChangeClass, code: string, path: string, message: string) {
    predicate Consistent() {
      severity == SeverityOf(change)
    }
  }

  function FileText(file: ContractFile): string {
    match file
    case AsyncApiFile => "asyncapi.json"
    case AsyncApiContents => "asyncapi.json#"
    case PermissionsContents => "permissions.json#"
    case CapabilitiesContents => "capabilities.json#"
    case ManifestContents => "contract-manifest.json#"
  }

  function FieldText(field: Field): string {
    match field
    case AddressField => "address"
    case ApiField => "api"
    case ApplicationVersionField => "application_version"
    case AuthModesField => "auth_modes"
    case AuthRolesField => "auth_roles"
    case CapabilitiesField => "capabilities"
    case ChannelsField => "channels"
    case CompiledField => "compiled"
    case ComponentsField => "components"
    case ContractsField => "contracts"
    case DeprecatedField => "deprecated"
    case MaximumSdkVersionField => "maximum_sdk_version"
    case MessageRoutesField => "message-routes"
    case MessagesField => "messages"
    case MinimumSdkVersionField => "minimum_sdk_version"
    case ModulesField => "modules"
    case NameField => "name"
    case PayloadField => "payload"
    case PermissionsField => "permissions"
    case ProfileField => "profile"
    case RequiredField => "required"
    case RuntimeAvailableField => "runtime_available"
    case SchemaVersionField => "schema_version"
    case SchemasField => "schemas"
    case ServiceKitVersionField => "service_kit_version"
    case ServiceVersionField => "service_version"
    case SseField => "sse"
    case TransportsField => "transports"
    case WebsocketField => "websocket"
    case XDirectionField => "x-direction"
    case XMessageVersionField => "x-message-version"
  }

  function PathText(p: Path): string {
    match p
    case Artifact(file) => FileText(file)
    case Part(whole, field) => PathText(whole) + "/" + Pointer.Escape(FieldText(field))
    case Under(parent, token) => PathText(parent) + "/" + Pointer.Escape(token)
  }

  /** `Finding::new`. */
  function Render(f: Finding): Line {
    Line(SeverityOf(f.change), f.change, Code(f.notice), PathText(f.path), Message(f.notice))
  }

  /** The order of the variants of `ChangeClass`. */
  function Rank(c: ChangeClass): nat {
    match c
    case Additive => 0
    case BehavioralCompatible => 1
    case Deprecated => 2
    case Breaking => 3
  }

  /** The sort key: path, code, class, message. */
  predicate KeyLe(f: Line, g: Line) {
    || StrLess(f.path, g.path)
    || (f.path == g.path &&
        (|| StrLess(f.code, g.code)
         || (f.code == g.code &&
             (Rank(f.change) < Rank(g.change) || (f.change == g.change && StrLe(f.message, g.message))))))
  }

  lemma KeyTotal(f: Line, g: Line)
    ensures KeyLe(f, g) || KeyLe(g, f)
  {
    StrTrichotomy(f.path, g.path);
    StrTrichotomy(f.code, g.code);
    StrTrichotomy(f.message, g.message);
  }

  lemma StrChain(a: string, b: string, c: string)
    ensures StrLess(a, b) && StrLess(b, c) ==> StrLess(a, c)
    ensures !(StrLess(a, b) && StrLess(b, a))
  {
    if StrLess(a, b) && StrLess(b, c) { StrTransitive(a, b, c); }
    if StrLess(a, b) && StrLess(b, a) { StrTransitive(a, b, a); StrIrreflexive(a); }
  }

  lemma KeyTransitive(f: Line, g: Line, h: Line)
    requires KeyLe(f, g) && KeyLe(g, h)
    ensures KeyLe(f, h)
  {
    StrChain(f.path, g.path, h.path);
    StrChain(f.code, g.code, h.code);
    StrChain(f.message, g.message, h.message);
  }

  /** Equal keys make equal findings, because the severity follows from the class. */
  lemma KeyAntisymmetric(f: Line, g: Line)
    requires KeyLe(f, g) && KeyLe(g, f) && f.Consistent() && g.Consistent()
    ensures f == g
  {
    StrChain(f.path, g.path, f.path);
    StrChain(f.code, g.code, f.code);
    StrChain(f.message, g.message, f.message);
    StrIrreflexive(f.path);
    StrIrreflexive(f.code);
  }

  lemma KeyOrder()
    ensures TotalPreorder(KeyLe)
  {
    forall f, g ensures KeyLe(f, g) || KeyLe(g, f) { KeyTotal(f, g); }
    forall f, g, h | KeyLe(f, g) && KeyLe(g, h) ensures KeyLe(f, h) { KeyTransitive(f, g, h); }
  }

  // ---- The canonical form

  ghost predicate AllConsistent(fs: seq<Line>) {
    forall f :: f in fs ==> f.Consistent()
  }

  /** `Report::normalize` on the list of findings. */
  function Normalized(fs: seq<Line>): seq<Line> {
    Dedup(Sort(fs, KeyLe))
  }

  /** Strictly increasing by the key. */
  ghost predicate Increasing(fs: seq<Line>) {
    forall i, j :: 0 <= i < j < |fs| ==> KeyLe(fs[i], fs[j]) && !KeyLe(fs[j], fs[i])
  }

  /** The findings stay the same set, strictly ordered by their keys. */
  lemma NormalizedIsCanonical(fs: seq<Line>)
    requires AllConsistent(fs)
    ensures Elements(Normalized(fs)) == Elements(fs)
    ensures StrictlySorted(Normalized(fs), KeyLe) && Increasing(Normalized(fs))
  {
    KeyOrder();
    SortSorted(fs, KeyLe);
    SortMembers(fs, KeyLe);
    DedupMembers(Sort(fs, KeyLe));
    ConsistentOrder(Sort(fs, KeyLe));
    DedupStrict(Sort(fs, KeyLe), KeyLe);
    forall i, j | 0 <= i < j < |Normalized(fs)| ensures !KeyLe(Normalized(fs)[j], Normalized(fs)[i]) {
      var f, g := Normalized(fs)[i], Normalized(fs)[j];
      assert f in Normalized(fs) && g in Normalized(fs);
      if KeyLe(g, f) { KeyAntisymmetric(f, g); }
    }
  }

  lemma ConsistentOrder(fs: seq<Line>)
    requires AllConsistent(fs)
    ensures AntisymmetricOn(fs, KeyLe)
  {
    forall f, g | f in fs && g in fs && KeyLe(f, g) && KeyLe(g, f) ensures f == g { KeyAntisymmetric(f, g); }
  }

  /** Reports with the same findings, pushed in whatever order and however often, become the
      same list, and reports with different findings do not. */
  lemma NormalizedByMembers(fs: seq<Line>, gs: seq<Line>)
    requires AllConsistent(fs) && AllConsistent(gs)
    ensures Normalized(fs) == Normalized(gs) <==> Elements(fs) == Elements(gs)
  {
    NormalizedIsCanonical(fs);
    NormalizedIsCanonical(gs);
    if Elements(fs) == Elements(gs) {
      forall f ensures f in Normalized(fs) <==> f in Normalized(gs) {
        assert f in Elements(Normalized(fs)) <==> f in Elements(Normalized(gs));
      }
      forall f | f in Normalized(fs) ensures f.Consistent() {
        assert f in Elements(Normalized(fs));
      }
      ConsistentOrder(Normalized(fs));
      StrictlySortedUnique(Normalized(fs), Normalized(gs), KeyLe);
    }
  }

  /** A line whose severity does not follow from its class survives beside its twin. */
  lemma InconsistentNotIncreasing(f: Line, g: Line)
    requires f != g && f == g.(severity := f.severity)
    ensures !Increasing(Normalized([f, g]))
  {
    assert Normalized([f, g]) == [f, g] by {
      assert [f, g][1..] == [g] && [g][1..] == [];
      assert Sort([g], KeyLe) == [g] && KeyLe(f, g);
      assert Sort([f, g], KeyLe) == [f, g];
      assert Dedup([g]) == [g];
    }
    assert KeyLe([f, g][1], [f, g][0]);
  }

  /** From additive over compatible and deprecated to breaking. */
  predicate Milder(c: ChangeClass, d: ChangeClass) {
    || (c.Additive? && !d.Additive?)
    || (c.BehavioralCompatible? && (d.Deprecated? || d.Breaking?))
    || (c.Deprecated? && d.Breaking?)
  }

  predicate Precedes(f: Line, g: Line) {
    || StrLess(f.path, g.path)
    || (f.path == g.path && StrLess(f.code, g.code))
    || (f.path == g.path && f.code == g.code && Milder(f.change, g.change))
    || (f.path == g.path && f.code == g.code && f.change == g.change && StrLess(f.message, g.message))
  }

  ghost predicate Fitting(l: Line) {
    && (l.severity.Error? <==> l.change.Breaking?)
    && (l.severity.Info? <==> l.change.Additive?)
  }

  /** A finished report goes by path, code, class and message, and errors are what breaks. */
  lemma NormalizedInOrder(fs: seq<Finding>)
    ensures var ls := Normalized(Rendered(fs));
            && (forall i, j :: 0 <= i < j < |ls| ==> Precedes(ls[i], ls[j]))
            && (forall l :: l in ls ==> Fitting(l))
  {
    var ls := Normalized(Rendered(fs));
    NormalizedIsCanonical(Rendered(fs));
    forall l | l in ls ensures Fitting(l) { assert l in Elements(ls); }
    forall i, j | 0 <= i < j < |ls| ensures Precedes(ls[i], ls[j]) {
      StrTrichotomy(ls[i].path, ls[j].path);
      StrTrichotomy(ls[i].code, ls[j].code);
      StrTrichotomy(ls[i].message, ls[j].message);
    }
  }

  // ---- The report object

  function Rendered(fs: seq<Finding>): (r: seq<Line>)
    ensures |r| == |fs| && forall i :: 0 <= i < |fs| ==> r[i] == Render(fs[i])
    ensures AllConsistent(r)
  {
    seq(|fs|, i requires 0 <= i < |fs| => Render(fs[i]))
  }

  /** The finished report depends on the set of findings alone. */
  lemma SameFindingsSameLines(fs: seq<Finding>, gs: seq<Finding>)
    requires Elements(fs) == Elements(gs)
    ensures Normalized(Rendered(fs)) == Normalized(Rendered(gs))
  {
    RenderedWithin(fs, gs);
    RenderedWithin(gs, fs);
    NormalizedByMembers(Rendered(fs), Rendered(gs));
  }

  lemma RenderedWithin(fs: seq<Finding>, gs: seq<Finding>)
    requires Elements(fs) <= Elements(gs)
    ensures Elements(Rendered(fs)) <= Elements(Rendered(gs))
  {
    forall l | l in Elements(Rendered(fs)) ensures l in Elements(Rendered(gs)) {
      var i :| 0 <= i < |fs| && Rendered(fs)[i] == l;
      assert fs[i] in Elements(fs);
      assert fs[i] in Elements(gs);
      var j :| 0 <= j < |gs| && gs[j] == fs[i];
      assert Rendered(gs)[j] == l;
    }
  }

  /** Printing loses no verdict: the lines break exactly when a finding does. */
  lemma RenderedCompatible(fs: seq<Finding>)
    ensures Compatible(Elements(fs)) <==> forall l :: l in Normalized(Rendered(fs)) ==> l.change != Breaking
  {
    var ls := Normalized(Rendered(fs));
    NormalizedIsCanonical(Rendered(fs));
    if Compatible(Elements(fs)) {
      forall l | l in ls ensures l.change != Breaking {
        assert l in Elements(ls);
        var i :| 0 <= i < |fs| && Rendered(fs)[i] == l;
        assert fs[i] in Elements(fs);
      }
    } else {
      var f :| f in Elements(fs) && f.change == Breaking;
      var i :| 0 <= i < |fs| && fs[i] == f;
      assert Rendered(fs)[i] in Elements(Rendered(fs));
      assert Rendered(fs)[i] in Elements(ls);
    }
  }

  class Report {
    var findings: seq<Finding>

    constructor ()
      ensures findings == []
    {
      findings := [];
    }

    method Push(f: Finding)
      modifies this
      ensures findings == old(findings) + [f]
      ensures Elements(findings) == old(Elements(findings)) + {f}
    {
      findings := findings + [f];
    }

    /** The finished report: the findings as text, sorted and without duplicates. */
    method Normalize() returns (lines: seq<Line>)
      ensures lines == Normalized(Rendered(findings)) && Increasing(lines)
      ensures (forall l :: l in lines ==> l.change != Breaking) <==> Compatible(Elements(findings))
      ensures forall fs: seq<Finding> :: Elements(fs) == Elements(findings) ==> lines == Normalized(Rendered(fs))
    {
      NormalizedIsCanonical(Rendered(findings));
      RenderedCompatible(findings);
      forall fs: seq<Finding> | Elements(fs) == Elements(findings)
        ensures Normalized(Rendered(findings)) == Normalized(Rendered(fs))
      {
        SameFindingsSameLines(findings, fs);
      }
      lines := Sort(Rendered(findings), KeyLe);
      lines := Dedup(lines);
    }

    method IsCompatible() returns (ok: bool)
      ensures ok <==> Compatible(Elements(findings))
    {
      for i := 0 to |findings|
        invariant forall j :: 0 <= j < i ==> findings[j].change != Breaking
      {
        if findings[i].change == Breaking {
          assert findings[i] in Elements(findings);
          return false;
        }
      }
      return true;
    }
  }
}
