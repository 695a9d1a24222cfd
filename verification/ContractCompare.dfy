/** `compare` as the source runs it: every part of the contract set pushes onto one report. */
module ContractCompare {
  import opened Json
  import opened Seqs
  import opened Notices
  import opened Findings
  import opened Report
  import opened ContractDiff
  import SchemaDiff
  import SchemaCompare
  import ContractExact

  method CompareField<T(==)>(b: T, c: T, f: Finding, report: Report)
    modifies report
    ensures Elements(report.findings) == old(Elements(report.findings)) + FieldDiff(b, c, f)
  {
    if b != c { report.Push(f); }
  }

  /** The findings about the entries under some keys that both sides have, one key after another. */
  function Gather<V>(ks: seq<string>, b: map<string, V>, c: map<string, V>, inner: (string, V, V) -> set<Finding>)
    : set<Finding>
    requires forall i :: 0 <= i < |ks| ==> ks[i] in b && ks[i] in c
  {
    if ks == [] then {}
    else
      var k := ks[|ks| - 1];
      Gather(ks[..|ks| - 1], b, c, inner) + inner(k, b[k], c[k])
  }

  lemma GatherMore<V>(ks: seq<string>, i: nat, b: map<string, V>, c: map<string, V>,
                      inner: (string, V, V) -> set<Finding>, before: set<Finding>, now: set<Finding>)
    requires i < |ks| && forall j :: 0 <= j < |ks| ==> ks[j] in b && ks[j] in c
    requires now == before + Gather(ks[..i], b, c, inner)
    ensures now + inner(ks[i], b[ks[i]], c[ks[i]]) == before + Gather(ks[..i + 1], b, c, inner)
  {
    assert ks[..i + 1][..i] == ks[..i];
  }

  lemma {:induction false} GatherIs<V>(ks: seq<string>, b: map<string, V>, c: map<string, V>,
                                       inner: (string, V, V) -> set<Finding>)
    requires forall i :: 0 <= i < |ks| ==> ks[i] in b && ks[i] in c
    ensures Gather(ks, b, c, inner) == set k, f | k in Elements(ks) && f in inner(k, b[k], c[k]) :: f
  {
    if ks != [] {
      GatherIs(ks[..|ks| - 1], b, c, inner);
      assert ks == ks[..|ks| - 1] + [ks[|ks| - 1]];
      assert Elements(ks) == Elements(ks[..|ks| - 1]) + {ks[|ks| - 1]};
    }
  }

  lemma GatherAll<V>(ks: seq<string>, b: map<string, V>, c: map<string, V>, gone: string -> Finding,
                     appeared: string -> Finding, inner: (string, V, V) -> set<Finding>)
    requires Elements(ks) == b.Keys * c.Keys && forall i :: 0 <= i < |ks| ==> ks[i] in b && ks[i] in c
    ensures KeyedDiff(b, c, gone, appeared, inner)
            == NamesDiff(b.Keys, c.Keys, gone, appeared) + Gather(ks, b, c, inner)
  {
    GatherIs(ks, b, c, inner);
  }

  /** Some order of the keys. */
  method Enumerate(s: set<string>) returns (ks: seq<string>)
    ensures Elements(ks) == s && forall i :: 0 <= i < |ks| ==> ks[i] in s
  {
    var todo := s;
    ks := [];
    while todo != {}
      invariant Elements(ks) + todo == s && forall i :: 0 <= i < |ks| ==> ks[i] in s
      decreases |todo|
    {
      var k :| k in todo;
      ks, todo := ks + [k], todo - {k};
    }
  }

  method CompareDeprecation(b: bool, c: bool, path: Path, deprecated: Notice, revived: Notice, report: Report)
    modifies report
    ensures Elements(report.findings)
            == old(Elements(report.findings)) + DeprecationDiff(b, c, path, deprecated, revived)
  {
    if !b && c {
      report.Push(Finding(Deprecated, deprecated, Part(path, DeprecatedField)));
    } else if b && !c {
      report.Push(Finding(BehavioralCompatible, revived, Part(path, DeprecatedField)));
    }
  }

  // ---- AsyncAPI

  method CompareMessage(k: string, b: AsyncMessage, c: AsyncMessage, report: Report)
    modifies report
    ensures Elements(report.findings) == old(Elements(report.findings)) + MessageAt(k, b, c)
  {
    CompareHeader(b, c, MessagePath(k), report);
    SchemaCompare.CompareSchema(b.payload, c.payload, Part(MessagePath(k), PayloadField), report);
  }

  method CompareHeader(b: AsyncMessage, c: AsyncMessage, path: Path, report: Report)
    modifies report
    ensures Elements(report.findings) == old(Elements(report.findings)) + HeaderDiff(b, c, path)
  {
    CompareField(b.name, c.name, Finding(Breaking, MessageNameChanged, Part(path, NameField)), report);
    CompareField(b.wireName, c.wireName, Finding(Breaking, WireNameChanged, Under(path, b.wireField)), report);
    CompareField(b.version, c.version, Finding(Breaking, VersionChanged, Part(path, XMessageVersionField)), report);
    CompareField(b.direction, c.direction, Finding(Breaking, DirectionChanged, Part(path, XDirectionField)), report);
    CompareField(b.wireField, c.wireField, Finding(Breaking, WireFieldChanged, Under(path, b.wireField)), report);
    CompareDeprecation(b.deprecated, c.deprecated, path, MessageDeprecated, MessageRevived, report);
  }

  method CompareMessages(b: map<string, AsyncMessage>, c: map<string, AsyncMessage>, report: Report)
    modifies report
    ensures Elements(report.findings) == old(Elements(report.findings)) + MessagesDiff(b, c)
  {
    SchemaCompare.CompareNames(b.Keys, c.Keys, MessageRemoved, MessageAdded, report);
    var ks := Enumerate(b.Keys * c.Keys);
    ghost var before := Elements(report.findings);
    for i := 0 to |ks|
      invariant Elements(report.findings) == before + Gather(ks[..i], b, c, MessageAt)
    {
      GatherMore(ks, i, b, c, MessageAt, before, Elements(report.findings));
      CompareMessage(ks[i], b[ks[i]], c[ks[i]], report);
    }
    assert ks[..|ks|] == ks;
    GatherAll(ks, b, c, MessageRemoved, MessageAdded, MessageAt);
  }

  method CompareSchemas(b: map<string, Json>, c: map<string, Json>, report: Report)
    modifies report
    ensures Elements(report.findings) == old(Elements(report.findings)) + SchemasDiff(b, c)
  {
    SchemaCompare.CompareNames(b.Keys, c.Keys, SchemaRemoved, SchemaAdded, report);
    var ks := Enumerate(b.Keys * c.Keys);
    ghost var before := Elements(report.findings);
    for i := 0 to |ks|
      invariant Elements(report.findings) == before + Gather(ks[..i], b, c, SchemaAt)
    {
      GatherMore(ks, i, b, c, SchemaAt, before, Elements(report.findings));
      SchemaCompare.CompareSchema(b[ks[i]], c[ks[i]], SchemaPath(ks[i]), report);
    }
    assert ks[..|ks|] == ks;
    GatherAll(ks, b, c, SchemaRemoved, SchemaAdded, SchemaAt);
  }

  method CompareChannels(b: map<string, AsyncChannel>, c: map<string, AsyncChannel>, report: Report)
    modifies report
    ensures Elements(report.findings) == old(Elements(report.findings)) + ChannelsDiff(b, c)
  {
    SchemaCompare.CompareNames(b.Keys, c.Keys, ChannelRemoved, ChannelAdded, report);
    var ks := Enumerate(b.Keys * c.Keys);
    ghost var before := Elements(report.findings);
    for i := 0 to |ks|
      invariant Elements(report.findings) == before + Gather(ks[..i], b, c, ChannelAt)
    {
      GatherMore(ks, i, b, c, ChannelAt, before, Elements(report.findings));
      CompareChannel(ks[i], b[ks[i]], c[ks[i]], report);
    }
    assert ks[..|ks|] == ks;
    GatherAll(ks, b, c, ChannelRemoved, ChannelAdded, ChannelAt);
  }

  method CompareChannel(k: string, b: AsyncChannel, c: AsyncChannel, report: Report)
    modifies report
    ensures Elements(report.findings) == old(Elements(report.findings)) + ChannelAt(k, b, c)
  {
    var path := ChannelPath(k);
    CompareField(b.address, c.address, Finding(Breaking, AddressChanged, Part(path, AddressField)), report);
    SchemaCompare.CompareNames(b.messages, c.messages, ChannelMessageRemoved(path), ChannelMessageAdded(path), report);
  }

  method CompareAsyncApi(b: Option<AsyncApi>, c: Option<AsyncApi>, report: Report)
    modifies report
    ensures Elements(report.findings) == old(Elements(report.findings)) + AsyncApiDiff(b, c)
  {
    match (b, c) {
      case (Some(x), Some(y)) =>
        CompareMessages(x.messages, y.messages, report);
        CompareSchemas(x.schemas, y.schemas, report);
        CompareChannels(x.channels, y.channels, report);
        SchemaCompare.CompareNames(Routes(x.directions), Routes(y.directions), RouteRemoved, RouteAdded, report);
      case (Some(_), None) => report.Push(Finding(Breaking, DocumentGone, Artifact(AsyncApiFile)));
      case (None, Some(_)) => report.Push(Finding(Additive, DocumentNew, Artifact(AsyncApiFile)));
      case (None, None) =>
    }
  }

  // ---- Permissions

  method ComparePermission(k: string, b: Permission, c: Permission, report: Report)
    modifies report
    ensures Elements(report.findings) == old(Elements(report.findings)) + PermissionAt(k, b, c)
  {
    var path := PermissionPath(k);
    CompareField((b.resource, b.action), (c.resource, c.action), Finding(Breaking, PermissionChanged, path), report);
    CompareDeprecation(b.deprecated, c.deprecated, path, PermissionDeprecated, PermissionRevived, report);
    CompareField((b.description, b.group, b.replacement), (c.description, c.group, c.replacement),
                 Finding(BehavioralCompatible, PermissionMetadataChanged, path), report);
  }

  method ComparePermissions(b: PermissionCatalog, c: PermissionCatalog, report: Report)
    modifies report
    ensures Elements(report.findings) == old(Elements(report.findings)) + PermissionsDiff(b, c)
    ensures forall f :: f in Elements(report.findings)
              <==> f in old(Elements(report.findings)) || ContractExact.PermissionReported(b, c, f)
  {
    CompareField(b.schemaVersion, c.schemaVersion,
                 Finding(Breaking, PermissionsVersionChanged, Part(PERMISSIONS, SchemaVersionField)), report);
    ComparePermissionEntries(b.permissions, c.permissions, report);
    forall f ensures f in PermissionsDiff(b, c) <==> ContractExact.PermissionReported(b, c, f) {
      ContractExact.PermissionsExactly(b, c, f);
    }
  }

  method ComparePermissionEntries(b: map<string, Permission>, c: map<string, Permission>, report: Report)
    modifies report
    ensures Elements(report.findings)
            == old(Elements(report.findings)) + KeyedDiff(b, c, PermissionRemoved, PermissionAdded, PermissionAt)
  {
    SchemaCompare.CompareNames(b.Keys, c.Keys, PermissionRemoved, PermissionAdded, report);
    var ks := Enumerate(b.Keys * c.Keys);
    ghost var before := Elements(report.findings);
    for i := 0 to |ks|
      invariant Elements(report.findings) == before + Gather(ks[..i], b, c, PermissionAt)
    {
      GatherMore(ks, i, b, c, PermissionAt, before, Elements(report.findings));
      ComparePermission(ks[i], b[ks[i]], c[ks[i]], report);
    }
    assert ks[..|ks|] == ks;
    GatherAll(ks, b, c, PermissionRemoved, PermissionAdded, PermissionAt);
  }

  // ---- Capabilities

  method CompareCompiled(b: bool, c: bool, path: Path, report: Report)
    modifies report
    ensures Elements(report.findings) == old(Elements(report.findings)) + CompiledDiff(b, c, path)
  {
    if b && !c {
      report.Push(Finding(Breaking, NoLongerCompiled, path));
    } else if !b && c {
      report.Push(Finding(Additive, NowCompiled, path));
    }
  }

  method CompareCapability(k: string, b: Capability, c: Capability, report: Report)
    modifies report
    ensures Elements(report.findings) == old(Elements(report.findings)) + CapabilityAt(k, b, c)
  {
    var path := CapabilityPath(k);
    CompareCompiled(b.compiled, c.compiled, Part(path, CompiledField), report);
    CompareField(b.runtimeAvailable, c.runtimeAvailable,
                 Finding(BehavioralCompatible, AvailabilityChanged, Part(path, RuntimeAvailableField)), report);
    CompareField(b.minimumSdkVersion, c.minimumSdkVersion,
                 Finding(BehavioralCompatible, CapabilitySdkChanged, Part(path, MinimumSdkVersionField)), report);
    SchemaCompare.CompareNames(b.authModes, c.authModes, ModeRemoved(path), ModeAdded(path), report);
    SchemaCompare.CompareNames(b.authRoles, c.authRoles, RoleRemoved(path), RoleAdded(path), report);
  }

  method CompareCapabilityEntries(b: map<string, Capability>, c: map<string, Capability>, report: Report)
    modifies report
    ensures Elements(report.findings) == old(Elements(report.findings)) + CapabilityEntriesDiff(b, c)
  {
    SchemaCompare.CompareNames(b.Keys, c.Keys, CapabilityRemoved, CapabilityAdded, report);
    var ks := Enumerate(b.Keys * c.Keys);
    ghost var before := Elements(report.findings);
    for i := 0 to |ks|
      invariant Elements(report.findings) == before + Gather(ks[..i], b, c, CapabilityAt)
    {
      GatherMore(ks, i, b, c, CapabilityAt, before, Elements(report.findings));
      CompareCapability(ks[i], b[ks[i]], c[ks[i]], report);
    }
    assert ks[..|ks|] == ks;
    GatherAll(ks, b, c, CapabilityRemoved, CapabilityAdded, CapabilityAt);
  }

  method CompareTransport(b: Option<string>, c: Option<string>, name: Field, report: Report)
    modifies report
    ensures Elements(report.findings) == old(Elements(report.findings)) + TransportDiff(b, c, name)
  {
    var path := Part(Part(CAPABILITIES, TransportsField), name);
    match (b, c) {
      case (Some(x), Some(y)) => CompareField(x, y, Finding(Breaking, TransportChanged, path), report);
      case (Some(_), None) => report.Push(Finding(Breaking, TransportGone, path));
      case (None, Some(_)) => report.Push(Finding(Additive, TransportNew, path));
      case (None, None) =>
    }
  }

  method CompareCapabilities(b: CapabilityCatalog, c: CapabilityCatalog, report: Report)
    modifies report
    ensures Elements(report.findings) == old(Elements(report.findings)) + CapabilitiesDiff(b, c)
  {
    CompareCatalogFields(b, c, report);
    CompareCapabilityEntries(b.capabilities, c.capabilities, report);
    CompareTransports(b, c, report);
  }

  method CompareCatalogFields(b: CapabilityCatalog, c: CapabilityCatalog, report: Report)
    modifies report
    ensures Elements(report.findings) == old(Elements(report.findings)) + CatalogFieldsDiff(b, c)
  {
    CompareField(b.schemaVersion, c.schemaVersion,
                 Finding(Breaking, CapabilitiesVersionChanged, Part(CAPABILITIES, SchemaVersionField)), report);
    CompareField(b.profile, c.profile,
                 Finding(Breaking, CapabilitiesProfileChanged, Part(CAPABILITIES, ProfileField)), report);
    CompareField(b.serviceVersion, c.serviceVersion,
                 Finding(BehavioralCompatible, ServiceVersionChanged, Part(CAPABILITIES, ServiceVersionField)), report);
  }

  method CompareTransports(b: CapabilityCatalog, c: CapabilityCatalog, report: Report)
    modifies report
    ensures Elements(report.findings) == old(Elements(report.findings)) + TransportsDiff(b, c)
  {
    CompareTransport(Some(b.api), Some(c.api), ApiField, report);
    CompareTransport(b.websocket, c.websocket, WebsocketField, report);
    CompareTransport(b.sse, c.sse, SseField, report);
  }

  // ---- The manifest

  method CompareManifest(b: Manifest, c: Manifest, report: Report)
    modifies report
    ensures Elements(report.findings) == old(Elements(report.findings)) + ManifestDiff(b, c)
  {
    CompareField(b.schemaVersion, c.schemaVersion,
                 Finding(Breaking, ManifestVersionChanged, Part(MANIFEST, SchemaVersionField)), report);
    CompareField(b.profile, c.profile, Finding(Breaking, ManifestProfileChanged, Part(MANIFEST, ProfileField)), report);
    SchemaCompare.CompareNames(b.modules, c.modules, ModuleRemoved, ModuleAdded, report);
    CompareMetadata(b, c, report);
  }

  method CompareMetadata(b: Manifest, c: Manifest, report: Report)
    modifies report
    ensures Elements(report.findings) == old(Elements(report.findings)) + MetadataDiff(b, c)
  {
    CompareField(b.serviceKitVersion, c.serviceKitVersion, MetadataFinding(ServiceKitVersionField), report);
    CompareField(b.applicationVersion, c.applicationVersion, MetadataFinding(ApplicationVersionField), report);
    CompareField(b.minimumSdkVersion, c.minimumSdkVersion, MetadataFinding(MinimumSdkVersionField), report);
    CompareField(b.maximumSdkVersion, c.maximumSdkVersion, MetadataFinding(MaximumSdkVersionField), report);
    SchemaCompare.PushEach(Requirements(b, c), RequirementFinding, report);
  }

  /** The artifacts whose being required changed. */
  function Requirements(b: Manifest, c: Manifest): set<string> {
    set k | k in b.required && k in c.required && b.required[k] != c.required[k]
  }

  // ---- The contract set

  /** What another part of the comparison found is pushed as it is. */
  method PushAll(findings: seq<Finding>, report: Report)
    modifies report
    ensures Elements(report.findings) == old(Elements(report.findings)) + Elements(findings)
  {
    for i := 0 to |findings|
      invariant Elements(report.findings) == old(Elements(report.findings)) + Elements(findings[..i])
    {
      report.Push(findings[i]);
      assert findings[..i + 1] == findings[..i] + [findings[i]];
    }
    assert findings[..|findings|] == findings;
  }

  /** One comparison of contract sets, given what the OpenAPI part finds: the lines are the
      canonical text of all that was found, and free of breaks exactly when nothing breaks. */
  method Compare(b: ContractSet, c: ContractSet, openapi: seq<Finding>)
    returns (lines: seq<Line>, ghost found: set<Finding>)
    ensures found == Elements(openapi) + ContractsDiff(b, c) && Increasing(lines)
    ensures forall fs: seq<Finding> :: Elements(fs) == found ==> lines == Normalized(Rendered(fs))
    ensures (forall l :: l in lines ==> l.change != Breaking) <==> Compatible(found)
    ensures (forall l :: l in lines ==> l.change != Breaking)
            <==> Compatible(Elements(openapi)) && ContractExact.ContractsKept(b, c)
  {
    var report := new Report();
    PushAll(openapi, report);
    assert Elements(report.findings) == Elements(openapi);
    CompareParts(b, c, report);
    found := Elements(report.findings);
    lines := report.Normalize();
    ContractExact.ContractsCompatible(b, c);
    CompatibleUnion(Elements(openapi), ContractsDiff(b, c));
  }

  method CompareParts(b: ContractSet, c: ContractSet, report: Report)
    modifies report
    ensures Elements(report.findings) == old(Elements(report.findings)) + ContractsDiff(b, c)
  {
    CompareAsyncApi(b.asyncapi, c.asyncapi, report);
    ComparePermissions(b.permissions, c.permissions, report);
    CompareCapabilities(b.capabilities, c.capabilities, report);
    CompareManifest(b.manifest, c.manifest, report);
    Gathered(old(Elements(report.findings)), AsyncApiDiff(b.asyncapi, c.asyncapi),
             PermissionsDiff(b.permissions, c.permissions), CapabilitiesDiff(b.capabilities, c.capabilities),
             ManifestDiff(b.manifest, c.manifest));
  }

  lemma Gathered(o: set<Finding>, a: set<Finding>, b: set<Finding>, c: set<Finding>, d: set<Finding>)
    ensures o + a + b + c + d == o + (a + b + c + d)
  {
  }
}
