/** Exactly what a comparison of contract sets reports, and exactly when it does not break, said on
    the entries of the documents. */
module ContractExact {
  import opened Json
  import opened Notices
  import opened Findings
  import opened ContractDiff
  import SchemaDiff
  import SchemaExact

  lemma NamesFindings<T(!new)>(was: set<T>, now: set<T>, gone: T -> Finding, appeared: T -> Finding, f: Finding)
    ensures f in NamesDiff(was, now, gone, appeared) <==>
            || (exists x :: x in was && x !in now && f == gone(x))
            || (exists x :: x in now && x !in was && f == appeared(x))
  {
  }

  lemma KeyedFindings<V>(b: map<string, V>, c: map<string, V>, gone: string -> Finding, appeared: string -> Finding,
                         inner: (string, V, V) -> set<Finding>, f: Finding)
    ensures f in KeyedDiff(b, c, gone, appeared, inner) <==>
            || (exists k :: k in b && k !in c && f == gone(k))
            || (exists k :: k in c && k !in b && f == appeared(k))
            || (exists k :: k in b && k in c && f in inner(k, b[k], c[k]))
  {
    NamesFindings(b.Keys, c.Keys, gone, appeared, f);
    if k :| k in b && k in c && f in inner(k, b[k], c[k]) { assert k in b.Keys * c.Keys; }
  }

  // ---- Permissions

  /** The place of an entry of a section. */
  function Place(file: ContractFile, section: Field, name: string): Path {
    Under(Part(Artifact(file), section), name)
  }

  ghost predicate PermissionChange(b: Permission, c: Permission, at: Path, f: Finding) {
    || (f == Finding(Breaking, PermissionChanged, at) && (b.resource != c.resource || b.action != c.action))
    || (f == Finding(Deprecated, PermissionDeprecated, Part(at, DeprecatedField)) && !b.deprecated && c.deprecated)
    || (f == Finding(BehavioralCompatible, PermissionRevived, Part(at, DeprecatedField)) && b.deprecated && !c.deprecated)
    || (f == Finding(BehavioralCompatible, PermissionMetadataChanged, at)
        && (b.description != c.description || b.group != c.group || b.replacement != c.replacement))
  }

  ghost predicate PermissionReported(b: PermissionCatalog, c: PermissionCatalog, f: Finding) {
    var at := (id: string) => Place(PermissionsContents, PermissionsField, id);
    || (f == Finding(Breaking, PermissionsVersionChanged, Part(Artifact(PermissionsContents), SchemaVersionField))
        && b.schemaVersion != c.schemaVersion)
    || (exists id :: id in b.permissions && id !in c.permissions && f == Finding(Breaking, PermissionGone, at(id)))
    || (exists id :: id in c.permissions && id !in b.permissions && f == Finding(Additive, PermissionNew, at(id)))
    || (exists id :: id in b.permissions && id in c.permissions
                     && PermissionChange(b.permissions[id], c.permissions[id], at(id), f))
  }

  lemma PermissionAtExactly(k: string, b: Permission, c: Permission, f: Finding)
    ensures f in PermissionAt(k, b, c) <==> PermissionChange(b, c, Place(PermissionsContents, PermissionsField, k), f)
  {
  }

  /** The findings on permissions, one by one. */
  lemma PermissionsExactly(b: PermissionCatalog, c: PermissionCatalog, f: Finding)
    ensures f in PermissionsDiff(b, c) <==> PermissionReported(b, c, f)
  {
    KeyedFindings(b.permissions, c.permissions, PermissionRemoved, PermissionAdded, PermissionAt, f);
    forall k, x, y ensures f in PermissionAt(k, x, y) <==> PermissionChange(x, y, Place(PermissionsContents, PermissionsField, k), f) {
      PermissionAtExactly(k, x, y, f);
    }
  }

  ghost predicate PermissionsKept(b: PermissionCatalog, c: PermissionCatalog) {
    && b.schemaVersion == c.schemaVersion
    && forall id :: id in b.permissions ==>
         && id in c.permissions
         && b.permissions[id].resource == c.permissions[id].resource && b.permissions[id].action == c.permissions[id].action
  }

  lemma PermissionsCompatible(b: PermissionCatalog, c: PermissionCatalog)
    ensures Compatible(PermissionsDiff(b, c)) <==> PermissionsKept(b, c)
  {
    KeyedCompatible(b.permissions, c.permissions, PermissionRemoved, PermissionAdded, PermissionAt);
    forall k, x, y ensures Compatible(PermissionAt(k, x, y)) <==> x.resource == y.resource && x.action == y.action {
      PermissionCompatible(k, x, y);
    }
    var version := Finding(Breaking, PermissionsVersionChanged, Part(PERMISSIONS, SchemaVersionField));
    CompatibleUnion(FieldDiff(b.schemaVersion, c.schemaVersion, version),
                    KeyedDiff(b.permissions, c.permissions, PermissionRemoved, PermissionAdded, PermissionAt));
    FieldCompatible(b.schemaVersion, c.schemaVersion, version);
  }

  lemma FieldCompatible<T>(b: T, c: T, f: Finding)
    ensures Compatible(FieldDiff(b, c, f)) <==> b == c || f.change != Breaking
  {
    if b != c { assert f in FieldDiff(b, c, f); }
  }

  lemma PermissionCompatible(k: string, b: Permission, c: Permission)
    ensures Compatible(PermissionAt(k, b, c)) <==> b.resource == c.resource && b.action == c.action
  {
    if b.resource != c.resource || b.action != c.action {
      assert Finding(Breaking, PermissionChanged, PermissionPath(k)) in PermissionAt(k, b, c);
    }
  }

  // ---- Capabilities

  ghost predicate NameChange(was: set<string>, now: set<string>, section: Path, gone: Notice, appeared: Notice, f: Finding) {
    || (exists x :: x in was && x !in now && f == Finding(Breaking, gone, Under(section, x)))
    || (exists x :: x in now && x !in was && f == Finding(Additive, appeared, Under(section, x)))
  }

  ghost predicate CapabilityChange(b: Capability, c: Capability, at: Path, f: Finding) {
    || (f == Finding(Breaking, NoLongerCompiled, Part(at, CompiledField)) && b.compiled && !c.compiled)
    || (f == Finding(Additive, NowCompiled, Part(at, CompiledField)) && !b.compiled && c.compiled)
    || (f == Finding(BehavioralCompatible, AvailabilityChanged, Part(at, RuntimeAvailableField))
        && b.runtimeAvailable != c.runtimeAvailable)
    || (f == Finding(BehavioralCompatible, CapabilitySdkChanged, Part(at, MinimumSdkVersionField))
        && b.minimumSdkVersion != c.minimumSdkVersion)
    || NameChange(b.authModes, c.authModes, Part(at, AuthModesField), AuthModeGone, AuthModeNew, f)
    || NameChange(b.authRoles, c.authRoles, Part(at, AuthRolesField), AuthRoleGone, AuthRoleNew, f)
  }

  ghost predicate TransportReported(b: Option<string>, c: Option<string>, name: Field, f: Finding) {
    var at := Part(Part(Artifact(CapabilitiesContents), TransportsField), name);
    || (f == Finding(Breaking, TransportChanged, at) && b.Some? && c.Some? && b != c)
    || (f == Finding(Breaking, TransportGone, at) && b.Some? && c.None?)
    || (f == Finding(Additive, TransportNew, at) && b.None? && c.Some?)
  }

  ghost predicate CapabilityFieldReported(b: CapabilityCatalog, c: CapabilityCatalog, f: Finding) {
    var file := Artifact(CapabilitiesContents);
    || (f == Finding(Breaking, CapabilitiesVersionChanged, Part(file, SchemaVersionField)) && b.schemaVersion != c.schemaVersion)
    || (f == Finding(Breaking, CapabilitiesProfileChanged, Part(file, ProfileField)) && b.profile != c.profile)
    || (f == Finding(BehavioralCompatible, ServiceVersionChanged, Part(file, ServiceVersionField))
        && b.serviceVersion != c.serviceVersion)
  }

  ghost predicate CapabilityReported(b: CapabilityCatalog, c: CapabilityCatalog, f: Finding) {
    var at := (id: string) => Place(CapabilitiesContents, CapabilitiesField, id);
    || CapabilityFieldReported(b, c, f)
    || (exists id :: id in b.capabilities && id !in c.capabilities && f == Finding(Breaking, CapabilityGone, at(id)))
    || (exists id :: id in c.capabilities && id !in b.capabilities && f == Finding(Additive, CapabilityNew, at(id)))
    || (exists id :: id in b.capabilities && id in c.capabilities
                     && CapabilityChange(b.capabilities[id], c.capabilities[id], at(id), f))
    || TransportReported(Some(b.api), Some(c.api), ApiField, f)
    || TransportReported(b.websocket, c.websocket, WebsocketField, f)
    || TransportReported(b.sse, c.sse, SseField, f)
  }

  lemma CapabilityAtExactly(k: string, b: Capability, c: Capability, f: Finding)
    ensures f in CapabilityAt(k, b, c) <==> CapabilityChange(b, c, Place(CapabilitiesContents, CapabilitiesField, k), f)
  {
    var path := CapabilityPath(k);
    NamesFindings(b.authModes, c.authModes, ModeRemoved(path), ModeAdded(path), f);
    NamesFindings(b.authRoles, c.authRoles, RoleRemoved(path), RoleAdded(path), f);
  }

  lemma TransportExactly(b: Option<string>, c: Option<string>, name: Field, f: Finding)
    ensures f in TransportDiff(b, c, name) <==> TransportReported(b, c, name, f)
  {
  }

  lemma CapabilityEntriesExactly(b: map<string, Capability>, c: map<string, Capability>, f: Finding)
    ensures f in CapabilityEntriesDiff(b, c) <==>
            var at := (id: string) => Place(CapabilitiesContents, CapabilitiesField, id);
            || (exists id :: id in b && id !in c && f == Finding(Breaking, CapabilityGone, at(id)))
            || (exists id :: id in c && id !in b && f == Finding(Additive, CapabilityNew, at(id)))
            || (exists id :: id in b && id in c && CapabilityChange(b[id], c[id], at(id), f))
  {
    KeyedFindings(b, c, CapabilityRemoved, CapabilityAdded, CapabilityAt, f);
    forall k, x, y ensures f in CapabilityAt(k, x, y) <==> CapabilityChange(x, y, Place(CapabilitiesContents, CapabilitiesField, k), f) {
      CapabilityAtExactly(k, x, y, f);
    }
  }

  /** The findings on capabilities, one by one. */
  lemma CapabilitiesExactly(b: CapabilityCatalog, c: CapabilityCatalog, f: Finding)
    ensures f in CapabilitiesDiff(b, c) <==> CapabilityReported(b, c, f)
  {
    CapabilityEntriesExactly(b.capabilities, c.capabilities, f);
    TransportExactly(Some(b.api), Some(c.api), ApiField, f);
    TransportExactly(b.websocket, c.websocket, WebsocketField, f);
    TransportExactly(b.sse, c.sse, SseField, f);
    assert f in CatalogFieldsDiff(b, c) <==> CapabilityFieldReported(b, c, f);
  }

  predicate CapabilityKept(b: Capability, c: Capability) {
    (b.compiled ==> c.compiled) && b.authModes <= c.authModes && b.authRoles <= c.authRoles
  }

  ghost predicate CapabilitiesKept(b: CapabilityCatalog, c: CapabilityCatalog) {
    && b.schemaVersion == c.schemaVersion && b.profile == c.profile
    && (forall id :: id in b.capabilities ==> id in c.capabilities && CapabilityKept(b.capabilities[id], c.capabilities[id]))
    && b.api == c.api && (b.websocket.Some? ==> b.websocket == c.websocket) && (b.sse.Some? ==> b.sse == c.sse)
  }

  lemma CapabilityCompatible(k: string, b: Capability, c: Capability)
    ensures Compatible(CapabilityAt(k, b, c)) <==> CapabilityKept(b, c)
  {
    var path := CapabilityPath(k);
    forall f ensures f in CapabilityAt(k, b, c) <==> CapabilityChange(b, c, path, f) { CapabilityAtExactly(k, b, c, f); }
    if !CapabilityKept(b, c) {
      if b.compiled && !c.compiled {
        assert CapabilityChange(b, c, path, Finding(Breaking, NoLongerCompiled, Part(path, CompiledField)));
      } else if !(b.authModes <= c.authModes) {
        var m :| m in b.authModes && m !in c.authModes;
        assert CapabilityChange(b, c, path, Finding(Breaking, AuthModeGone, Under(Part(path, AuthModesField), m)));
      } else {
        var m :| m in b.authRoles && m !in c.authRoles;
        assert CapabilityChange(b, c, path, Finding(Breaking, AuthRoleGone, Under(Part(path, AuthRolesField), m)));
      }
    }
  }

  lemma TransportCompatible(b: Option<string>, c: Option<string>, name: Field)
    ensures Compatible(TransportDiff(b, c, name)) <==> (b.Some? ==> b == c)
  {
    var at := Part(Part(CAPABILITIES, TransportsField), name);
    if b.Some? && b != c {
      assert (if c.Some? then Finding(Breaking, TransportChanged, at) else Finding(Breaking, TransportGone, at))
             in TransportDiff(b, c, name);
    }
  }

  lemma CapabilitiesCompatible(b: CapabilityCatalog, c: CapabilityCatalog)
    ensures Compatible(CapabilitiesDiff(b, c)) <==> CapabilitiesKept(b, c)
  {
    CapabilityFieldsCompatible(b, c);
    KeyedCompatible(b.capabilities, c.capabilities, CapabilityRemoved, CapabilityAdded, CapabilityAt);
    forall k, x, y ensures Compatible(CapabilityAt(k, x, y)) <==> CapabilityKept(x, y) { CapabilityCompatible(k, x, y); }
    TransportsCompatible(b, c);
    CompatibleUnion(CatalogFieldsDiff(b, c), CapabilityEntriesDiff(b.capabilities, c.capabilities));
    CompatibleUnion(CatalogFieldsDiff(b, c) + CapabilityEntriesDiff(b.capabilities, c.capabilities), TransportsDiff(b, c));
  }

  lemma CapabilityFieldsCompatible(b: CapabilityCatalog, c: CapabilityCatalog)
    ensures Compatible(CatalogFieldsDiff(b, c)) <==> b.schemaVersion == c.schemaVersion && b.profile == c.profile
  {
    if b.schemaVersion != c.schemaVersion {
      assert Finding(Breaking, CapabilitiesVersionChanged, Part(CAPABILITIES, SchemaVersionField)) in CatalogFieldsDiff(b, c);
    } else if b.profile != c.profile {
      assert Finding(Breaking, CapabilitiesProfileChanged, Part(CAPABILITIES, ProfileField)) in CatalogFieldsDiff(b, c);
    }
  }

  lemma TransportsCompatible(b: CapabilityCatalog, c: CapabilityCatalog)
    ensures Compatible(TransportsDiff(b, c)) <==>
            b.api == c.api && (b.websocket.Some? ==> b.websocket == c.websocket) && (b.sse.Some? ==> b.sse == c.sse)
  {
    var api, web := TransportDiff(Some(b.api), Some(c.api), ApiField), TransportDiff(b.websocket, c.websocket, WebsocketField);
    TransportCompatible(Some(b.api), Some(c.api), ApiField);
    TransportCompatible(b.websocket, c.websocket, WebsocketField);
    TransportCompatible(b.sse, c.sse, SseField);
    CompatibleUnion(api, web);
    CompatibleUnion(api + web, TransportDiff(b.sse, c.sse, SseField));
  }

  // ---- The manifest

  ghost predicate ManifestReported(b: Manifest, c: Manifest, f: Finding) {
    var file := Artifact(ManifestContents);
    var remark := (field: Field) => Finding(BehavioralCompatible, MetadataChanged, Part(file, field));
    || (f == Finding(Breaking, ManifestVersionChanged, Part(file, SchemaVersionField)) && b.schemaVersion != c.schemaVersion)
    || (f == Finding(Breaking, ManifestProfileChanged, Part(file, ProfileField)) && b.profile != c.profile)
    || NameChange(b.modules, c.modules, Part(file, ModulesField), ModuleGone, ModuleNew, f)
    || (f == remark(ServiceKitVersionField) && b.serviceKitVersion != c.serviceKitVersion)
    || (f == remark(ApplicationVersionField) && b.applicationVersion != c.applicationVersion)
    || (f == remark(MinimumSdkVersionField) && b.minimumSdkVersion != c.minimumSdkVersion)
    || (f == remark(MaximumSdkVersionField) && b.maximumSdkVersion != c.maximumSdkVersion)
    || (exists k :: k in b.required && k in c.required && b.required[k] != c.required[k]
                    && f == Finding(BehavioralCompatible, RequirementChanged,
                                    Part(Place(ManifestContents, ContractsField, k), RequiredField)))
  }

  /** The findings on the manifest, one by one. */
  lemma ManifestExactly(b: Manifest, c: Manifest, f: Finding)
    ensures f in ManifestDiff(b, c) <==> ManifestReported(b, c, f)
  {
    NamesFindings(b.modules, c.modules, ModuleRemoved, ModuleAdded, f);
  }

  predicate ManifestKept(b: Manifest, c: Manifest) {
    b.schemaVersion == c.schemaVersion && b.profile == c.profile && b.modules <= c.modules
  }

  lemma ManifestCompatible(b: Manifest, c: Manifest)
    ensures Compatible(ManifestDiff(b, c)) <==> ManifestKept(b, c)
  {
    NamesCompatible(b.modules, c.modules, ModuleRemoved, ModuleAdded);
    var names := NamesDiff(b.modules, c.modules, ModuleRemoved, ModuleAdded);
    ManifestFieldsCompatible(b, c);
    CompatibleUnion(ManifestFieldsDiff(b, c), names);
    CompatibleUnion(ManifestFieldsDiff(b, c) + names, MetadataDiff(b, c));
  }

  lemma ManifestFieldsCompatible(b: Manifest, c: Manifest)
    ensures Compatible(ManifestFieldsDiff(b, c)) <==> b.schemaVersion == c.schemaVersion && b.profile == c.profile
    ensures Compatible(MetadataDiff(b, c))
  {
    if b.schemaVersion != c.schemaVersion {
      assert Finding(Breaking, ManifestVersionChanged, Part(MANIFEST, SchemaVersionField)) in ManifestFieldsDiff(b, c);
    } else if b.profile != c.profile {
      assert Finding(Breaking, ManifestProfileChanged, Part(MANIFEST, ProfileField)) in ManifestFieldsDiff(b, c);
    }
  }

  // ---- The AsyncAPI document

  function ComponentPlace(section: Field, name: string): Path {
    Under(Part(Part(Artifact(AsyncApiContents), ComponentsField), section), name)
  }

  ghost predicate HeaderChange(b: AsyncMessage, c: AsyncMessage, at: Path, f: Finding) {
    || (f == Finding(Breaking, MessageNameChanged, Part(at, NameField)) && b.name != c.name)
    || (f == Finding(Breaking, WireNameChanged, Under(at, b.wireField)) && b.wireName != c.wireName)
    || (f == Finding(Breaking, WireFieldChanged, Under(at, b.wireField)) && b.wireField != c.wireField)
    || (f == Finding(Breaking, VersionChanged, Part(at, XMessageVersionField)) && b.version != c.version)
    || (f == Finding(Breaking, DirectionChanged, Part(at, XDirectionField)) && b.direction != c.direction)
    || (f == Finding(Deprecated, MessageDeprecated, Part(at, DeprecatedField)) && !b.deprecated && c.deprecated)
    || (f == Finding(BehavioralCompatible, MessageRevived, Part(at, DeprecatedField)) && b.deprecated && !c.deprecated)
  }

  ghost predicate MessageReported(b: map<string, AsyncMessage>, c: map<string, AsyncMessage>, f: Finding) {
    var at := (k: string) => ComponentPlace(MessagesField, k);
    || (exists k :: k in b && k !in c && f == Finding(Breaking, MessageGone, at(k)))
    || (exists k :: k in c && k !in b && f == Finding(Additive, MessageNew, at(k)))
    || (exists k :: k in b && k in c && HeaderChange(b[k], c[k], at(k), f))
    || (exists k :: k in b && k in c && f in SchemaDiff.Diff(b[k].payload, c[k].payload, Part(at(k), PayloadField)))
  }

  lemma MessageAtExactly(k: string, b: AsyncMessage, c: AsyncMessage, f: Finding)
    ensures f in MessageAt(k, b, c) <==>
            var at := ComponentPlace(MessagesField, k);
            HeaderChange(b, c, at, f) || f in SchemaDiff.Diff(b.payload, c.payload, Part(at, PayloadField))
  {
    assert f in HeaderDiff(b, c, MessagePath(k)) <==> HeaderChange(b, c, ComponentPlace(MessagesField, k), f);
  }

  /** The findings on messages, one by one. */
  lemma MessagesExactly(b: map<string, AsyncMessage>, c: map<string, AsyncMessage>, f: Finding)
    ensures f in MessagesDiff(b, c) <==> MessageReported(b, c, f)
  {
    KeyedFindings(b, c, MessageRemoved, MessageAdded, MessageAt, f);
    forall k | k in b && k in c
      ensures f in MessageAt(k, b[k], c[k]) <==>
              || HeaderChange(b[k], c[k], ComponentPlace(MessagesField, k), f)
              || f in SchemaDiff.Diff(b[k].payload, c[k].payload, Part(ComponentPlace(MessagesField, k), PayloadField))
    {
      MessageAtExactly(k, b[k], c[k], f);
    }
  }

  ghost predicate SchemaReported(b: map<string, Json>, c: map<string, Json>, f: Finding) {
    var at := (k: string) => ComponentPlace(SchemasField, k);
    || (exists k :: k in b && k !in c && f == Finding(Breaking, SchemaGone, at(k)))
    || (exists k :: k in c && k !in b && f == Finding(Additive, SchemaNew, at(k)))
    || (exists k :: k in b && k in c && f in SchemaDiff.Diff(b[k], c[k], at(k)))
  }

  lemma SchemasExactly(b: map<string, Json>, c: map<string, Json>, f: Finding)
    ensures f in SchemasDiff(b, c) <==> SchemaReported(b, c, f)
  {
    KeyedFindings(b, c, SchemaRemoved, SchemaAdded, SchemaAt, f);
  }

  ghost predicate ChannelReported(b: map<string, AsyncChannel>, c: map<string, AsyncChannel>, f: Finding) {
    var at := (k: string) => Place(AsyncApiContents, ChannelsField, k);
    || (exists k :: k in b && k !in c && f == Finding(Breaking, ChannelGone, at(k)))
    || (exists k :: k in c && k !in b && f == Finding(Additive, ChannelNew, at(k)))
    || (exists k :: k in b && k in c && b[k].address != c[k].address
                    && f == Finding(Breaking, AddressChanged, Part(at(k), AddressField)))
    || (exists k :: k in b && k in c
                    && NameChange(b[k].messages, c[k].messages, Part(at(k), MessagesField), ChannelMessageGone, ChannelMessageNew, f))
  }

  lemma ChannelAtExactly(k: string, b: AsyncChannel, c: AsyncChannel, f: Finding)
    ensures f in ChannelAt(k, b, c) <==>
            var at := Place(AsyncApiContents, ChannelsField, k);
            || (b.address != c.address && f == Finding(Breaking, AddressChanged, Part(at, AddressField)))
            || NameChange(b.messages, c.messages, Part(at, MessagesField), ChannelMessageGone, ChannelMessageNew, f)
  {
    NamesFindings(b.messages, c.messages, ChannelMessageRemoved(ChannelPath(k)), ChannelMessageAdded(ChannelPath(k)), f);
  }

  lemma ChannelsExactly(b: map<string, AsyncChannel>, c: map<string, AsyncChannel>, f: Finding)
    ensures f in ChannelsDiff(b, c) <==> ChannelReported(b, c, f)
  {
    KeyedFindings(b, c, ChannelRemoved, ChannelAdded, ChannelAt, f);
    forall k | k in b && k in c
      ensures f in ChannelAt(k, b[k], c[k]) <==>
              var at := Place(AsyncApiContents, ChannelsField, k);
              || (b[k].address != c[k].address && f == Finding(Breaking, AddressChanged, Part(at, AddressField)))
              || NameChange(b[k].messages, c[k].messages, Part(at, MessagesField), ChannelMessageGone, ChannelMessageNew, f)
    {
      ChannelAtExactly(k, b[k], c[k], f);
    }
  }

  predicate Routed(d: map<string, set<Route>>, k: string, r: Route) {
    k in d && r in d[k]
  }

  function RoutePlace(k: string, r: Route): Path {
    Under(Under(Under(Part(Artifact(AsyncApiContents), MessageRoutesField), k), r.channel), r.action)
  }

  ghost predicate RouteReported(b: map<string, set<Route>>, c: map<string, set<Route>>, f: Finding) {
    || (exists k, r :: Routed(b, k, r) && !Routed(c, k, r) && f == Finding(Breaking, RouteGone, RoutePlace(k, r)))
    || (exists k, r :: Routed(c, k, r) && !Routed(b, k, r) && f == Finding(Additive, RouteNew, RoutePlace(k, r)))
  }

  lemma RoutesExactly(b: map<string, set<Route>>, c: map<string, set<Route>>, f: Finding)
    ensures f in DirectionsDiff(b, c) <==> RouteReported(b, c, f)
  {
    NamesFindings(Routes(b), Routes(c), RouteRemoved, RouteAdded, f);
    forall d, k, r ensures (k, r) in Routes(d) <==> Routed(d, k, r) {}
    if k, r :| Routed(b, k, r) && !Routed(c, k, r) && f == Finding(Breaking, RouteGone, RoutePlace(k, r)) {
      assert (k, r) in Routes(b) && (k, r) !in Routes(c) && f == RouteRemoved((k, r));
    }
    if k, r :| Routed(c, k, r) && !Routed(b, k, r) && f == Finding(Additive, RouteNew, RoutePlace(k, r)) {
      assert (k, r) in Routes(c) && (k, r) !in Routes(b) && f == RouteAdded((k, r));
    }
  }

  ghost predicate DocumentReported(b: Option<AsyncApi>, c: Option<AsyncApi>, f: Finding) {
    || (f == Finding(Breaking, DocumentGone, Artifact(AsyncApiFile)) && b.Some? && c.None?)
    || (f == Finding(Additive, DocumentNew, Artifact(AsyncApiFile)) && b.None? && c.Some?)
    || (&& b.Some? && c.Some?
        && (|| MessageReported(b.value.messages, c.value.messages, f) || SchemaReported(b.value.schemas, c.value.schemas, f)
            || ChannelReported(b.value.channels, c.value.channels, f)
            || RouteReported(b.value.directions, c.value.directions, f)))
  }

  /** The findings on a document, one by one. */
  lemma DocumentExactly(b: Option<AsyncApi>, c: Option<AsyncApi>, f: Finding)
    ensures f in AsyncApiDiff(b, c) <==> DocumentReported(b, c, f)
  {
    if b.Some? && c.Some? {
      MessagesExactly(b.value.messages, c.value.messages, f);
      SchemasExactly(b.value.schemas, c.value.schemas, f);
      ChannelsExactly(b.value.channels, c.value.channels, f);
      RoutesExactly(b.value.directions, c.value.directions, f);
    }
  }

  ghost predicate MessageKept(b: AsyncMessage, c: AsyncMessage) {
    && b.name == c.name && b.wireName == c.wireName && b.wireField == c.wireField
    && b.version == c.version && b.direction == c.direction && SchemaExact.Loosened(b.payload, c.payload)
  }

  ghost predicate DocumentKept(b: AsyncApi, c: AsyncApi) {
    && (forall k :: k in b.messages ==> k in c.messages && MessageKept(b.messages[k], c.messages[k]))
    && (forall k :: k in b.schemas ==> k in c.schemas && SchemaExact.Loosened(b.schemas[k], c.schemas[k]))
    && (forall k :: k in b.channels ==>
          k in c.channels && b.channels[k].address == c.channels[k].address && b.channels[k].messages <= c.channels[k].messages)
    && (forall k, r :: Routed(b.directions, k, r) ==> Routed(c.directions, k, r))
  }

  lemma MessageCompatible(k: string, b: AsyncMessage, c: AsyncMessage)
    ensures Compatible(MessageAt(k, b, c)) <==> MessageKept(b, c)
  {
    var at := MessagePath(k);
    SchemaExact.CompatibleExactly(b.payload, c.payload, Part(at, PayloadField));
    HeaderCompatible(b, c, at);
    CompatibleUnion(HeaderDiff(b, c, at), SchemaDiff.Diff(b.payload, c.payload, Part(at, PayloadField)));
  }

  lemma HeaderCompatible(b: AsyncMessage, c: AsyncMessage, at: Path)
    ensures Compatible(HeaderDiff(b, c, at)) <==>
            && b.name == c.name && b.wireName == c.wireName && b.wireField == c.wireField
            && b.version == c.version && b.direction == c.direction
  {
  }

  lemma ChannelCompatible(k: string, b: AsyncChannel, c: AsyncChannel)
    ensures Compatible(ChannelAt(k, b, c)) <==> b.address == c.address && b.messages <= c.messages
  {
    var gone, appeared := ChannelMessageRemoved(ChannelPath(k)), ChannelMessageAdded(ChannelPath(k));
    var moved := Finding(Breaking, AddressChanged, Part(ChannelPath(k), AddressField));
    NamesCompatible(b.messages, c.messages, gone, appeared);
    FieldCompatible(b.address, c.address, moved);
    CompatibleUnion(FieldDiff(b.address, c.address, moved), NamesDiff(b.messages, c.messages, gone, appeared));
  }

  lemma RoutesCompatible(b: map<string, set<Route>>, c: map<string, set<Route>>)
    ensures Compatible(DirectionsDiff(b, c)) <==> forall k, r :: Routed(b, k, r) ==> Routed(c, k, r)
  {
    NamesCompatible(Routes(b), Routes(c), RouteRemoved, RouteAdded);
    forall d, k, r ensures (k, r) in Routes(d) <==> Routed(d, k, r) {}
    if forall k, r :: Routed(b, k, r) ==> Routed(c, k, r) {
      forall x | x in Routes(b) ensures x in Routes(c) { assert Routed(b, x.0, x.1); }
    }
  }

  lemma MessagesCompatible(b: map<string, AsyncMessage>, c: map<string, AsyncMessage>)
    ensures Compatible(MessagesDiff(b, c)) <==> forall k :: k in b ==> k in c && MessageKept(b[k], c[k])
  {
    KeyedCompatible(b, c, MessageRemoved, MessageAdded, MessageAt);
    forall k | k in b && k in c ensures Compatible(MessageAt(k, b[k], c[k])) <==> MessageKept(b[k], c[k]) {
      MessageCompatible(k, b[k], c[k]);
    }
  }

  lemma SchemasCompatible(b: map<string, Json>, c: map<string, Json>)
    ensures Compatible(SchemasDiff(b, c)) <==> forall k :: k in b ==> k in c && SchemaExact.Loosened(b[k], c[k])
  {
    KeyedCompatible(b, c, SchemaRemoved, SchemaAdded, SchemaAt);
    forall k | k in b && k in c ensures Compatible(SchemaAt(k, b[k], c[k])) <==> SchemaExact.Loosened(b[k], c[k]) {
      SchemaExact.CompatibleExactly(b[k], c[k], SchemaPath(k));
    }
  }

  lemma ChannelsCompatible(b: map<string, AsyncChannel>, c: map<string, AsyncChannel>)
    ensures Compatible(ChannelsDiff(b, c)) <==>
            forall k :: k in b ==> k in c && b[k].address == c[k].address && b[k].messages <= c[k].messages
  {
    KeyedCompatible(b, c, ChannelRemoved, ChannelAdded, ChannelAt);
    forall k | k in b && k in c
      ensures Compatible(ChannelAt(k, b[k], c[k])) <==> b[k].address == c[k].address && b[k].messages <= c[k].messages
    {
      ChannelCompatible(k, b[k], c[k]);
    }
  }

  lemma DocumentCompatible(b: AsyncApi, c: AsyncApi)
    ensures Compatible(DocumentDiff(b, c)) <==> DocumentKept(b, c)
  {
    MessagesCompatible(b.messages, c.messages);
    SchemasCompatible(b.schemas, c.schemas);
    ChannelsCompatible(b.channels, c.channels);
    RoutesCompatible(b.directions, c.directions);
    Compatible4(MessagesDiff(b.messages, c.messages), SchemasDiff(b.schemas, c.schemas),
                ChannelsDiff(b.channels, c.channels), DirectionsDiff(b.directions, c.directions));
  }

  lemma Compatible4(f: set<Finding>, g: set<Finding>, h: set<Finding>, i: set<Finding>)
    ensures Compatible(f + g + h + i) <==> Compatible(f) && Compatible(g) && Compatible(h) && Compatible(i)
  {
    CompatibleUnion(f, g);
    CompatibleUnion(f + g, h);
    CompatibleUnion(f + g + h, i);
  }

  // ---- The contract set

  ghost predicate ContractsKept(b: ContractSet, c: ContractSet) {
    && (b.asyncapi.Some? ==> c.asyncapi.Some? && DocumentKept(b.asyncapi.value, c.asyncapi.value))
    && PermissionsKept(b.permissions, c.permissions) && CapabilitiesKept(b.capabilities, c.capabilities)
    && ManifestKept(b.manifest, c.manifest)
  }

  /** A contract set is compatible exactly when everything that the baseline promises is kept. */
  lemma ContractsCompatible(b: ContractSet, c: ContractSet)
    ensures Compatible(ContractsDiff(b, c)) <==> ContractsKept(b, c)
  {
    PermissionsCompatible(b.permissions, c.permissions);
    CapabilitiesCompatible(b.capabilities, c.capabilities);
    ManifestCompatible(b.manifest, c.manifest);
    AsyncApiCompatible(b.asyncapi, c.asyncapi);
    Compatible4(AsyncApiDiff(b.asyncapi, c.asyncapi), PermissionsDiff(b.permissions, c.permissions),
                CapabilitiesDiff(b.capabilities, c.capabilities), ManifestDiff(b.manifest, c.manifest));
  }

  lemma AsyncApiCompatible(b: Option<AsyncApi>, c: Option<AsyncApi>)
    ensures Compatible(AsyncApiDiff(b, c)) <==> (b.Some? ==> c.Some? && DocumentKept(b.value, c.value))
  {
    match (b, c)
    case (Some(x), Some(y)) => DocumentCompatible(x, y);
    case (Some(_), None) => assert Finding(Breaking, DocumentGone, Artifact(AsyncApiFile)) in AsyncApiDiff(b, c);
    case _ =>
  }

  /** The findings on a contract set are those of its parts. */
  lemma ContractsExactly(b: ContractSet, c: ContractSet, f: Finding)
    ensures f in ContractsDiff(b, c) <==>
            || DocumentReported(b.asyncapi, c.asyncapi, f) || PermissionReported(b.permissions, c.permissions, f)
            || CapabilityReported(b.capabilities, c.capabilities, f) || ManifestReported(b.manifest, c.manifest, f)
  {
    DocumentExactly(b.asyncapi, c.asyncapi, f);
    PermissionsExactly(b.permissions, c.permissions, f);
    CapabilitiesExactly(b.capabilities, c.capabilities, f);
    ManifestExactly(b.manifest, c.manifest, f);
  }
}
