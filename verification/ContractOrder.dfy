/** The laws of the schema comparison carry over to whole contract sets. */
module ContractOrder {
  import opened Json
  import opened Notices
  import opened Findings
  import opened ContractDiff
  import SchemaDiff
  import SchemaOrder

  // ---- Comparing a contract set with itself finds nothing

  lemma SilentMessages(m: map<string, AsyncMessage>)
    ensures MessagesDiff(m, m) == {}
  {
    forall k | k in m ensures MessageAt(k, m[k], m[k]) == {} {
      SchemaOrder.Reflexive(m[k].payload, Part(MessagePath(k), PayloadField));
    }
    KeyedSame(m, MessageRemoved, MessageAdded, MessageAt);
  }

  lemma SilentSchemas(m: map<string, Json>)
    ensures SchemasDiff(m, m) == {}
  {
    forall k | k in m ensures SchemaAt(k, m[k], m[k]) == {} {
      SchemaOrder.Reflexive(m[k], SchemaPath(k));
    }
    KeyedSame(m, SchemaRemoved, SchemaAdded, SchemaAt);
  }

  lemma SilentAsyncApi(b: Option<AsyncApi>)
    ensures AsyncApiDiff(b, b) == {}
  {
    if b.Some? {
      SilentMessages(b.value.messages);
      SilentSchemas(b.value.schemas);
      forall k, x ensures ChannelAt(k, x, x) == {} {
        NamesSame(x.messages, ChannelMessageRemoved(ChannelPath(k)), ChannelMessageAdded(ChannelPath(k)));
      }
      KeyedSame(b.value.channels, ChannelRemoved, ChannelAdded, ChannelAt);
      NamesSame(Routes(b.value.directions), RouteRemoved, RouteAdded);
    }
  }

  lemma SilentCapabilities(b: CapabilityCatalog)
    ensures CapabilitiesDiff(b, b) == {}
  {
    forall k, x ensures CapabilityAt(k, x, x) == {} {
      NamesSame(x.authModes, ModeRemoved(CapabilityPath(k)), ModeAdded(CapabilityPath(k)));
      NamesSame(x.authRoles, RoleRemoved(CapabilityPath(k)), RoleAdded(CapabilityPath(k)));
    }
    KeyedSame(b.capabilities, CapabilityRemoved, CapabilityAdded, CapabilityAt);
  }

  lemma SilentCatalogs(b: ContractSet)
    ensures PermissionsDiff(b.permissions, b.permissions) == {} && ManifestDiff(b.manifest, b.manifest) == {}
  {
    KeyedSame(b.permissions.permissions, PermissionRemoved, PermissionAdded, PermissionAt);
    NamesSame(b.manifest.modules, ModuleRemoved, ModuleAdded);
  }

  lemma ContractsReflexive(b: ContractSet)
    ensures ContractsDiff(b, b) == {}
  {
    SilentAsyncApi(b.asyncapi);
    SilentCapabilities(b.capabilities);
    SilentCatalogs(b);
  }

  // ---- Compatibility chains

  /** The messages whose payloads have a gap between the three documents. */
  ghost function MessageGaps(a: AsyncApi, b: AsyncApi, c: AsyncApi): set<string> {
    set k | k in a.messages.Keys * b.messages.Keys * c.messages.Keys
            && SchemaOrder.Gap(a.messages[k].payload, b.messages[k].payload, c.messages[k].payload)
  }

  /** The component schemas with a gap. */
  ghost function SchemaGaps(a: AsyncApi, b: AsyncApi, c: AsyncApi): set<string> {
    set k | k in a.schemas.Keys * b.schemas.Keys * c.schemas.Keys
            && SchemaOrder.Gap(a.schemas[k], b.schemas[k], c.schemas[k])
  }

  ghost predicate DocumentGap(a: Option<AsyncApi>, b: Option<AsyncApi>, c: Option<AsyncApi>) {
    && a.Some? && b.Some? && c.Some?
    && (MessageGaps(a.value, b.value, c.value) != {} || SchemaGaps(a.value, b.value, c.value) != {})
  }

  ghost predicate WellTypedDocument(d: AsyncApi) {
    && (forall k :: k in d.messages ==> SchemaOrder.WellTyped(d.messages[k].payload))
    && (forall k :: k in d.schemas ==> SchemaOrder.WellTyped(d.schemas[k]))
  }

  /** Documents whose `additionalProperties` are booleans or objects leave no gap. */
  lemma WellTypedNoGap(a: AsyncApi, b: AsyncApi, c: AsyncApi)
    requires WellTypedDocument(a) && WellTypedDocument(c)
    ensures !DocumentGap(Some(a), Some(b), Some(c))
  {
    forall k | k in a.messages && k in b.messages && k in c.messages
      ensures !SchemaOrder.Gap(a.messages[k].payload, b.messages[k].payload, c.messages[k].payload)
    {
      SchemaOrder.WellTypedNoGap(a.messages[k].payload, b.messages[k].payload, c.messages[k].payload);
    }
    forall k | k in a.schemas && k in b.schemas && k in c.schemas
      ensures !SchemaOrder.Gap(a.schemas[k], b.schemas[k], c.schemas[k])
    {
      SchemaOrder.WellTypedNoGap(a.schemas[k], b.schemas[k], c.schemas[k]);
    }
  }

  lemma SchemaChain(a: Json, b: Json, c: Json, path: Path)
    ensures ChainsIff(SchemaDiff.Diff(a, b, path), SchemaDiff.Diff(b, c, path), SchemaDiff.Diff(a, c, path),
                      !SchemaOrder.Gap(a, b, c))
  {
    if Compatible(SchemaDiff.Diff(a, b, path)) && Compatible(SchemaDiff.Diff(b, c, path)) {
      SchemaOrder.Transitive(a, b, c, path);
    }
  }

  lemma HeaderChain(a: AsyncMessage, b: AsyncMessage, c: AsyncMessage, path: Path)
    ensures Chains(HeaderDiff(a, b, path), HeaderDiff(b, c, path), HeaderDiff(a, c, path))
  {
    HeaderCompatible(a, b, path);
    HeaderCompatible(b, c, path);
    HeaderCompatible(a, c, path);
  }

  lemma HeaderCompatible(b: AsyncMessage, c: AsyncMessage, path: Path)
    ensures Compatible(HeaderDiff(b, c, path)) <==>
            (b.name, b.wireName, b.version, b.direction, b.wireField) == (c.name, c.wireName, c.version, c.direction, c.wireField)
    ensures forall f :: f in HeaderDiff(b, c, path) ==> f.change != Additive
  {
  }

  lemma MessageChain(k: string, a: AsyncMessage, b: AsyncMessage, c: AsyncMessage)
    ensures ChainsIff(MessageAt(k, a, b), MessageAt(k, b, c), MessageAt(k, a, c),
                      !SchemaOrder.Gap(a.payload, b.payload, c.payload))
  {
    var path := Part(MessagePath(k), PayloadField);
    HeaderChain(a, b, c, MessagePath(k));
    SchemaChain(a.payload, b.payload, c.payload, path);
    ChainsIffUnion(HeaderDiff(a, b, MessagePath(k)), HeaderDiff(b, c, MessagePath(k)), HeaderDiff(a, c, MessagePath(k)),
                   true, SchemaDiff.Diff(a.payload, b.payload, path), SchemaDiff.Diff(b.payload, c.payload, path),
                   SchemaDiff.Diff(a.payload, c.payload, path), !SchemaOrder.Gap(a.payload, b.payload, c.payload));
  }

  lemma MessagesChain(a: AsyncApi, b: AsyncApi, c: AsyncApi)
    ensures ChainsIff(MessagesDiff(a.messages, b.messages), MessagesDiff(b.messages, c.messages),
                      MessagesDiff(a.messages, c.messages), MessageGaps(a, b, c) == {})
  {
    var gaps := MessageGaps(a, b, c);
    forall k | k in a.messages && k in b.messages && k in c.messages
      ensures ChainsIff(MessageAt(k, a.messages[k], b.messages[k]), MessageAt(k, b.messages[k], c.messages[k]),
                        MessageAt(k, a.messages[k], c.messages[k]), k !in gaps)
    {
      MessageChain(k, a.messages[k], b.messages[k], c.messages[k]);
    }
    KeyedChainIff(a.messages, b.messages, c.messages, MessageRemoved, MessageAdded, MessageAt, gaps);
  }

  lemma SchemasChain(a: AsyncApi, b: AsyncApi, c: AsyncApi)
    ensures ChainsIff(SchemasDiff(a.schemas, b.schemas), SchemasDiff(b.schemas, c.schemas),
                      SchemasDiff(a.schemas, c.schemas), SchemaGaps(a, b, c) == {})
  {
    var gaps := SchemaGaps(a, b, c);
    forall k | k in a.schemas && k in b.schemas && k in c.schemas
      ensures ChainsIff(SchemaAt(k, a.schemas[k], b.schemas[k]), SchemaAt(k, b.schemas[k], c.schemas[k]),
                        SchemaAt(k, a.schemas[k], c.schemas[k]), k !in gaps)
    {
      SchemaChain(a.schemas[k], b.schemas[k], c.schemas[k], SchemaPath(k));
    }
    KeyedChainIff(a.schemas, b.schemas, c.schemas, SchemaRemoved, SchemaAdded, SchemaAt, gaps);
  }

  lemma ChannelChain(k: string, a: AsyncChannel, b: AsyncChannel, c: AsyncChannel)
    ensures Chains(ChannelAt(k, a, b), ChannelAt(k, b, c), ChannelAt(k, a, c))
  {
    NamesChain(a.messages, b.messages, c.messages, ChannelMessageRemoved(ChannelPath(k)), ChannelMessageAdded(ChannelPath(k)));
  }

  lemma ChannelsChain(a: map<string, AsyncChannel>, b: map<string, AsyncChannel>, c: map<string, AsyncChannel>)
    ensures Chains(ChannelsDiff(a, b), ChannelsDiff(b, c), ChannelsDiff(a, c))
  {
    forall k, x, y, z ensures Chains(ChannelAt(k, x, y), ChannelAt(k, y, z), ChannelAt(k, x, z)) { ChannelChain(k, x, y, z); }
    KeyedChain(a, b, c, ChannelRemoved, ChannelAdded, ChannelAt);
  }

  lemma DirectionsChain(a: map<string, set<Route>>, b: map<string, set<Route>>, c: map<string, set<Route>>)
    ensures Chains(DirectionsDiff(a, b), DirectionsDiff(b, c), DirectionsDiff(a, c))
  {
    NamesChain(Routes(a), Routes(b), Routes(c), RouteRemoved, RouteAdded);
  }

  lemma DocumentChain(a: AsyncApi, b: AsyncApi, c: AsyncApi)
    ensures ChainsIff(DocumentDiff(a, b), DocumentDiff(b, c), DocumentDiff(a, c),
                      MessageGaps(a, b, c) == {} && SchemaGaps(a, b, c) == {})
  {
    MessagesChain(a, b, c);
    SchemasChain(a, b, c);
    ChannelsChain(a.channels, b.channels, c.channels);
    DirectionsChain(a.directions, b.directions, c.directions);
    ChainsIff4(MessagesDiff(a.messages, b.messages), MessagesDiff(b.messages, c.messages),
               MessagesDiff(a.messages, c.messages), MessageGaps(a, b, c) == {},
               SchemasDiff(a.schemas, b.schemas), SchemasDiff(b.schemas, c.schemas), SchemasDiff(a.schemas, c.schemas),
               SchemaGaps(a, b, c) == {},
               ChannelsDiff(a.channels, b.channels), ChannelsDiff(b.channels, c.channels), ChannelsDiff(a.channels, c.channels),
               DirectionsDiff(a.directions, b.directions), DirectionsDiff(b.directions, c.directions),
               DirectionsDiff(a.directions, c.directions));
  }

  /** Compatible steps of an AsyncAPI document compose exactly when no schema has a gap. */
  lemma AsyncApiChain(a: Option<AsyncApi>, b: Option<AsyncApi>, c: Option<AsyncApi>)
    ensures ChainsIff(AsyncApiDiff(a, b), AsyncApiDiff(b, c), AsyncApiDiff(a, c), !DocumentGap(a, b, c))
  {
    if a.Some? && b.Some? && c.Some? {
      DocumentChain(a.value, b.value, c.value);
    }
  }

  lemma CapabilityChain(k: string, a: Capability, b: Capability, c: Capability)
    ensures Chains(CapabilityAt(k, a, b), CapabilityAt(k, b, c), CapabilityAt(k, a, c))
  {
    NamesChain(a.authModes, b.authModes, c.authModes, ModeRemoved(CapabilityPath(k)), ModeAdded(CapabilityPath(k)));
    NamesChain(a.authRoles, b.authRoles, c.authRoles, RoleRemoved(CapabilityPath(k)), RoleAdded(CapabilityPath(k)));
  }

  lemma CapabilityEntriesChain(a: map<string, Capability>, b: map<string, Capability>, c: map<string, Capability>)
    ensures Chains(CapabilityEntriesDiff(a, b), CapabilityEntriesDiff(b, c), CapabilityEntriesDiff(a, c))
  {
    forall k, x, y, z ensures Chains(CapabilityAt(k, x, y), CapabilityAt(k, y, z), CapabilityAt(k, x, z)) {
      CapabilityChain(k, x, y, z);
    }
    KeyedChain(a, b, c, CapabilityRemoved, CapabilityAdded, CapabilityAt);
  }

  lemma CatalogFields(b: CapabilityCatalog, c: CapabilityCatalog)
    ensures Compatible(CatalogFieldsDiff(b, c)) <==> b.schemaVersion == c.schemaVersion && b.profile == c.profile
    ensures forall f :: f in CatalogFieldsDiff(b, c) ==> f.change != Additive
  {
  }

  lemma TransportsChain(a: CapabilityCatalog, b: CapabilityCatalog, c: CapabilityCatalog)
    ensures Chains(TransportsDiff(a, b), TransportsDiff(b, c), TransportsDiff(a, c))
  {
  }

  lemma CapabilitiesChain(a: CapabilityCatalog, b: CapabilityCatalog, c: CapabilityCatalog)
    ensures Chains(CapabilitiesDiff(a, b), CapabilitiesDiff(b, c), CapabilitiesDiff(a, c))
  {
    CatalogFields(a, b);
    CatalogFields(b, c);
    CatalogFields(a, c);
    CapabilityEntriesChain(a.capabilities, b.capabilities, c.capabilities);
    TransportsChain(a, b, c);
    Chains3(CatalogFieldsDiff(a, b), CatalogFieldsDiff(b, c), CatalogFieldsDiff(a, c),
            CapabilityEntriesDiff(a.capabilities, b.capabilities), CapabilityEntriesDiff(b.capabilities, c.capabilities),
            CapabilityEntriesDiff(a.capabilities, c.capabilities),
            TransportsDiff(a, b), TransportsDiff(b, c), TransportsDiff(a, c));
  }

  lemma PermissionsChain(a: PermissionCatalog, b: PermissionCatalog, c: PermissionCatalog)
    ensures Chains(PermissionsDiff(a, b), PermissionsDiff(b, c), PermissionsDiff(a, c))
  {
    KeyedChain(a.permissions, b.permissions, c.permissions, PermissionRemoved, PermissionAdded, PermissionAt);
  }

  lemma ManifestFields(b: Manifest, c: Manifest)
    ensures Compatible(ManifestFieldsDiff(b, c)) <==> b.schemaVersion == c.schemaVersion && b.profile == c.profile
    ensures forall f :: f in ManifestFieldsDiff(b, c) ==> f.change != Additive
    ensures forall f :: f in MetadataDiff(b, c) ==> f.change == BehavioralCompatible
  {
  }

  lemma ManifestChain(a: Manifest, b: Manifest, c: Manifest)
    ensures Chains(ManifestDiff(a, b), ManifestDiff(b, c), ManifestDiff(a, c))
  {
    ManifestFields(a, b);
    ManifestFields(b, c);
    ManifestFields(a, c);
    NamesChain(a.modules, b.modules, c.modules, ModuleRemoved, ModuleAdded);
    Chains3(ManifestFieldsDiff(a, b), ManifestFieldsDiff(b, c), ManifestFieldsDiff(a, c),
            NamesDiff(a.modules, b.modules, ModuleRemoved, ModuleAdded),
            NamesDiff(b.modules, c.modules, ModuleRemoved, ModuleAdded),
            NamesDiff(a.modules, c.modules, ModuleRemoved, ModuleAdded),
            MetadataDiff(a, b), MetadataDiff(b, c), MetadataDiff(a, c));
  }

  /** Compatible steps of a contract set compose exactly when no schema has a gap. */
  lemma ContractsTransitive(a: ContractSet, b: ContractSet, c: ContractSet)
    requires Compatible(ContractsDiff(a, b)) && Compatible(ContractsDiff(b, c))
    ensures Compatible(ContractsDiff(a, c)) <==> !DocumentGap(a.asyncapi, b.asyncapi, c.asyncapi)
  {
    AsyncApiChain(a.asyncapi, b.asyncapi, c.asyncapi);
    PermissionsChain(a.permissions, b.permissions, c.permissions);
    CapabilitiesChain(a.capabilities, b.capabilities, c.capabilities);
    ManifestChain(a.manifest, b.manifest, c.manifest);
    ChainsIff4(AsyncApiDiff(a.asyncapi, b.asyncapi), AsyncApiDiff(b.asyncapi, c.asyncapi),
               AsyncApiDiff(a.asyncapi, c.asyncapi), !DocumentGap(a.asyncapi, b.asyncapi, c.asyncapi),
               PermissionsDiff(a.permissions, b.permissions), PermissionsDiff(b.permissions, c.permissions),
               PermissionsDiff(a.permissions, c.permissions), true,
               CapabilitiesDiff(a.capabilities, b.capabilities), CapabilitiesDiff(b.capabilities, c.capabilities),
               CapabilitiesDiff(a.capabilities, c.capabilities),
               ManifestDiff(a.manifest, b.manifest), ManifestDiff(b.manifest, c.manifest),
               ManifestDiff(a.manifest, c.manifest));
  }

  // ---- An addition read backwards is a break

  lemma MessageMirror(k: string, b: AsyncMessage, c: AsyncMessage)
    ensures Mirrors(MessageAt(k, b, c), MessageAt(k, c, b))
  {
    var path := Part(MessagePath(k), PayloadField);
    HeaderCompatible(b, c, MessagePath(k));
    SchemaOrder.AdditionsMirror(b.payload, c.payload, path);
    MirrorsUnion(HeaderDiff(b, c, MessagePath(k)), HeaderDiff(c, b, MessagePath(k)),
                 SchemaDiff.Diff(b.payload, c.payload, path), SchemaDiff.Diff(c.payload, b.payload, path));
  }

  lemma ChannelMirror(k: string, b: AsyncChannel, c: AsyncChannel)
    ensures Mirrors(ChannelAt(k, b, c), ChannelAt(k, c, b))
  {
    var gone, appeared := ChannelMessageRemoved(ChannelPath(k)), ChannelMessageAdded(ChannelPath(k));
    NamesMirror(b.messages, c.messages, gone, appeared);
    var f := Finding(Breaking, AddressChanged, Part(ChannelPath(k), AddressField));
    MirrorsUnion(FieldDiff(b.address, c.address, f), FieldDiff(c.address, b.address, f),
                 NamesDiff(b.messages, c.messages, gone, appeared), NamesDiff(c.messages, b.messages, gone, appeared));
  }

  lemma DocumentMirror(b: AsyncApi, c: AsyncApi)
    ensures Mirrors(DocumentDiff(b, c), DocumentDiff(c, b))
  {
    forall k, x, y ensures Mirrors(MessageAt(k, x, y), MessageAt(k, y, x)) { MessageMirror(k, x, y); }
    KeyedMirror(b.messages, c.messages, MessageRemoved, MessageAdded, MessageAt);
    forall k, x, y ensures Mirrors(SchemaAt(k, x, y), SchemaAt(k, y, x)) { SchemaOrder.AdditionsMirror(x, y, SchemaPath(k)); }
    KeyedMirror(b.schemas, c.schemas, SchemaRemoved, SchemaAdded, SchemaAt);
    forall k, x, y ensures Mirrors(ChannelAt(k, x, y), ChannelAt(k, y, x)) { ChannelMirror(k, x, y); }
    KeyedMirror(b.channels, c.channels, ChannelRemoved, ChannelAdded, ChannelAt);
    NamesMirror(Routes(b.directions), Routes(c.directions), RouteRemoved, RouteAdded);
    Mirrors4(MessagesDiff(b.messages, c.messages), MessagesDiff(c.messages, b.messages),
             SchemasDiff(b.schemas, c.schemas), SchemasDiff(c.schemas, b.schemas),
             ChannelsDiff(b.channels, c.channels), ChannelsDiff(c.channels, b.channels),
             DirectionsDiff(b.directions, c.directions), DirectionsDiff(c.directions, b.directions));
  }

  lemma AsyncApiMirror(b: Option<AsyncApi>, c: Option<AsyncApi>)
    ensures Mirrors(AsyncApiDiff(b, c), AsyncApiDiff(c, b))
  {
    if b.Some? && c.Some? {
      DocumentMirror(b.value, c.value);
    } else if c.Some? {
      assert Finding(Breaking, DocumentGone, Artifact(AsyncApiFile)) in AsyncApiDiff(c, b);
    }
  }

  lemma PermissionsMirror(b: PermissionCatalog, c: PermissionCatalog)
    ensures Mirrors(PermissionsDiff(b, c), PermissionsDiff(c, b))
  {
    KeyedMirror(b.permissions, c.permissions, PermissionRemoved, PermissionAdded, PermissionAt);
    var f := Finding(Breaking, PermissionsVersionChanged, Part(PERMISSIONS, SchemaVersionField));
    MirrorsUnion(FieldDiff(b.schemaVersion, c.schemaVersion, f), FieldDiff(c.schemaVersion, b.schemaVersion, f),
                 KeyedDiff(b.permissions, c.permissions, PermissionRemoved, PermissionAdded, PermissionAt),
                 KeyedDiff(c.permissions, b.permissions, PermissionRemoved, PermissionAdded, PermissionAt));
  }

  lemma CapabilityMirror(k: string, b: Capability, c: Capability)
    ensures Mirrors(CapabilityAt(k, b, c), CapabilityAt(k, c, b))
  {
    var path, back := CapabilityPath(k), CapabilityAt(k, c, b);
    NamesMirror(b.authModes, c.authModes, ModeRemoved(path), ModeAdded(path));
    NamesMirror(b.authRoles, c.authRoles, RoleRemoved(path), RoleAdded(path));
    assert NamesDiff(c.authModes, b.authModes, ModeRemoved(path), ModeAdded(path)) <= back;
    assert NamesDiff(c.authRoles, b.authRoles, RoleRemoved(path), RoleAdded(path)) <= back;
    assert !b.compiled && c.compiled ==> Finding(Breaking, NoLongerCompiled, Part(path, CompiledField)) in back;
  }

  lemma TransportMirror(b: Option<string>, c: Option<string>, name: Field)
    ensures Mirrors(TransportDiff(b, c, name), TransportDiff(c, b, name))
  {
    if b.None? && c.Some? {
      assert Finding(Breaking, TransportGone, Part(Part(CAPABILITIES, TransportsField), name)) in TransportDiff(c, b, name);
    }
  }

  lemma TransportsMirror(b: CapabilityCatalog, c: CapabilityCatalog)
    ensures Mirrors(TransportsDiff(b, c), TransportsDiff(c, b))
  {
    TransportMirror(Some(b.api), Some(c.api), ApiField);
    TransportMirror(b.websocket, c.websocket, WebsocketField);
    TransportMirror(b.sse, c.sse, SseField);
    MirrorsUnion(TransportDiff(Some(b.api), Some(c.api), ApiField), TransportDiff(Some(c.api), Some(b.api), ApiField),
                 TransportDiff(b.websocket, c.websocket, WebsocketField), TransportDiff(c.websocket, b.websocket, WebsocketField));
    MirrorsUnion(TransportDiff(Some(b.api), Some(c.api), ApiField) + TransportDiff(b.websocket, c.websocket, WebsocketField),
                 TransportDiff(Some(c.api), Some(b.api), ApiField) + TransportDiff(c.websocket, b.websocket, WebsocketField),
                 TransportDiff(b.sse, c.sse, SseField), TransportDiff(c.sse, b.sse, SseField));
  }

  lemma CapabilityEntriesMirror(b: map<string, Capability>, c: map<string, Capability>)
    ensures Mirrors(CapabilityEntriesDiff(b, c), CapabilityEntriesDiff(c, b))
  {
    forall k, x, y ensures Mirrors(CapabilityAt(k, x, y), CapabilityAt(k, y, x)) { CapabilityMirror(k, x, y); }
    KeyedMirror(b, c, CapabilityRemoved, CapabilityAdded, CapabilityAt);
  }

  lemma CapabilitiesMirror(b: CapabilityCatalog, c: CapabilityCatalog)
    ensures Mirrors(CapabilitiesDiff(b, c), CapabilitiesDiff(c, b))
  {
    CatalogFields(b, c);
    CapabilityEntriesMirror(b.capabilities, c.capabilities);
    TransportsMirror(b, c);
    Mirrors3(CatalogFieldsDiff(b, c), CatalogFieldsDiff(c, b),
             CapabilityEntriesDiff(b.capabilities, c.capabilities), CapabilityEntriesDiff(c.capabilities, b.capabilities),
             TransportsDiff(b, c), TransportsDiff(c, b));
  }

  lemma ManifestMirror(b: Manifest, c: Manifest)
    ensures Mirrors(ManifestDiff(b, c), ManifestDiff(c, b))
  {
    ManifestFields(b, c);
    NamesMirror(b.modules, c.modules, ModuleRemoved, ModuleAdded);
    Mirrors3(ManifestFieldsDiff(b, c), ManifestFieldsDiff(c, b),
             NamesDiff(b.modules, c.modules, ModuleRemoved, ModuleAdded),
             NamesDiff(c.modules, b.modules, ModuleRemoved, ModuleAdded),
             MetadataDiff(b, c), MetadataDiff(c, b));
  }

  /** Every addition of a contract comparison is a break at the same place when the two sets
      change roles. */
  lemma ContractsMirror(b: ContractSet, c: ContractSet)
    ensures Mirrors(ContractsDiff(b, c), ContractsDiff(c, b))
  {
    AsyncApiMirror(b.asyncapi, c.asyncapi);
    PermissionsMirror(b.permissions, c.permissions);
    CapabilitiesMirror(b.capabilities, c.capabilities);
    ManifestMirror(b.manifest, c.manifest);
    Mirrors4(AsyncApiDiff(b.asyncapi, c.asyncapi), AsyncApiDiff(c.asyncapi, b.asyncapi),
             PermissionsDiff(b.permissions, c.permissions), PermissionsDiff(c.permissions, b.permissions),
             CapabilitiesDiff(b.capabilities, c.capabilities), CapabilitiesDiff(c.capabilities, b.capabilities),
             ManifestDiff(b.manifest, c.manifest), ManifestDiff(c.manifest, b.manifest));
  }
}
