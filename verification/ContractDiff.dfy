/** The comparison of whole contract sets (xtask/src/contract_diff.rs): the AsyncAPI document,
    the permission and capability catalogs and the contract manifest. */
module ContractDiff {
  import opened Json
  import opened Notices
  import opened Findings
  import SchemaDiff

  /** A place two names below another: a section and an entry of it. */
  function Entry(parent: Path, section: Field, name: string): Path {
    Under(Part(parent, section), name)
  }

  // ---- AsyncAPI

  datatype AsyncMessage = AsyncMessage(name: string, wireName: string, wireField: string, version: string,
                                       direction: string, deprecated: bool, payload: Json)

  datatype AsyncChannel = AsyncChannel(address: string, messages: set<string>)

  datatype Route = Route(channel: string, action: string)

  datatype AsyncApi = AsyncApi(messages: map<string, AsyncMessage>, schemas: map<string, Json>,
                               channels: map<string, AsyncChannel>, directions: map<string, set<Route>>)

  const ASYNCAPI := Artifact(AsyncApiContents)

  function MessagePath(component: string): Path {
    Entry(Part(ASYNCAPI, ComponentsField), MessagesField, component)
  }

  function SchemaPath(name: string): Path {
    Entry(Part(ASYNCAPI, ComponentsField), SchemasField, name)
  }

  function ChannelPath(name: string): Path {
    Entry(ASYNCAPI, ChannelsField, name)
  }

  /** A message may be deprecated or revived; neither breaks. */
  function DeprecationDiff(b: bool, c: bool, path: Path, deprecated: Notice, revived: Notice): set<Finding> {
    if !b && c then {Finding(Deprecated, deprecated, Part(path, DeprecatedField))}
    else if b && !c then {Finding(BehavioralCompatible, revived, Part(path, DeprecatedField))}
    else {}
  }

  /** Everything about a message but its payload. */
  function HeaderDiff(b: AsyncMessage, c: AsyncMessage, path: Path): set<Finding> {
    FieldDiff(b.name, c.name, Finding(Breaking, MessageNameChanged, Part(path, NameField)))
    + FieldDiff(b.wireName, c.wireName, Finding(Breaking, WireNameChanged, Under(path, b.wireField)))
    + FieldDiff(b.version, c.version, Finding(Breaking, VersionChanged, Part(path, XMessageVersionField)))
    + FieldDiff(b.direction, c.direction, Finding(Breaking, DirectionChanged, Part(path, XDirectionField)))
    + FieldDiff(b.wireField, c.wireField, Finding(Breaking, WireFieldChanged, Under(path, b.wireField)))
    + DeprecationDiff(b.deprecated, c.deprecated, path, MessageDeprecated, MessageRevived)
  }

  /** `compare_async_message`. */
  function MessageAt(k: string, b: AsyncMessage, c: AsyncMessage): set<Finding> {
    HeaderDiff(b, c, MessagePath(k)) + SchemaDiff.Diff(b.payload, c.payload, Part(MessagePath(k), PayloadField))
  }

  function MessageRemoved(k: string): Finding {
    Finding(Breaking, MessageGone, MessagePath(k))
  }

  function MessageAdded(k: string): Finding {
    Finding(Additive, MessageNew, MessagePath(k))
  }

  function MessagesDiff(b: map<string, AsyncMessage>, c: map<string, AsyncMessage>): set<Finding> {
    KeyedDiff(b, c, MessageRemoved, MessageAdded, MessageAt)
  }

  function SchemaRemoved(k: string): Finding {
    Finding(Breaking, SchemaGone, SchemaPath(k))
  }

  function SchemaAdded(k: string): Finding {
    Finding(Additive, SchemaNew, SchemaPath(k))
  }

  function SchemaAt(k: string, b: Json, c: Json): set<Finding> {
    SchemaDiff.Diff(b, c, SchemaPath(k))
  }

  /** `compare_async_schemas`. */
  function SchemasDiff(b: map<string, Json>, c: map<string, Json>): set<Finding> {
    KeyedDiff(b, c, SchemaRemoved, SchemaAdded, SchemaAt)
  }

  function ChannelMessageRemoved(path: Path): string -> Finding {
    m => Finding(Breaking, ChannelMessageGone, Entry(path, MessagesField, m))
  }

  function ChannelMessageAdded(path: Path): string -> Finding {
    m => Finding(Additive, ChannelMessageNew, Entry(path, MessagesField, m))
  }

  function ChannelAt(k: string, b: AsyncChannel, c: AsyncChannel): set<Finding> {
    FieldDiff(b.address, c.address, Finding(Breaking, AddressChanged, Part(ChannelPath(k), AddressField)))
    + NamesDiff(b.messages, c.messages, ChannelMessageRemoved(ChannelPath(k)), ChannelMessageAdded(ChannelPath(k)))
  }

  function ChannelRemoved(k: string): Finding {
    Finding(Breaking, ChannelGone, ChannelPath(k))
  }

  function ChannelAdded(k: string): Finding {
    Finding(Additive, ChannelNew, ChannelPath(k))
  }

  /** `compare_async_channels`. */
  function ChannelsDiff(b: map<string, AsyncChannel>, c: map<string, AsyncChannel>): set<Finding> {
    KeyedDiff(b, c, ChannelRemoved, ChannelAdded, ChannelAt)
  }

  /** Every route of every message. */
  function Routes(d: map<string, set<Route>>): set<(string, Route)> {
    set k, r | k in d && r in d[k] :: (k, r)
  }

  function RoutePath(r: (string, Route)): Path {
    Under(Under(Under(Part(ASYNCAPI, MessageRoutesField), r.0), r.1.channel), r.1.action)
  }

  function RouteRemoved(r: (string, Route)): Finding {
    Finding(Breaking, RouteGone, RoutePath(r))
  }

  function RouteAdded(r: (string, Route)): Finding {
    Finding(Additive, RouteNew, RoutePath(r))
  }

  /** `compare_async_directions`. */
  function DirectionsDiff(b: map<string, set<Route>>, c: map<string, set<Route>>): set<Finding> {
    NamesDiff(Routes(b), Routes(c), RouteRemoved, RouteAdded)
  }

  function DocumentDiff(b: AsyncApi, c: AsyncApi): set<Finding> {
    MessagesDiff(b.messages, c.messages) + SchemasDiff(b.schemas, c.schemas)
    + ChannelsDiff(b.channels, c.channels) + DirectionsDiff(b.directions, c.directions)
  }

  /** `compare_asyncapi`. */
  function AsyncApiDiff(b: Option<AsyncApi>, c: Option<AsyncApi>): set<Finding> {
    match (b, c)
    case (Some(x), Some(y)) => DocumentDiff(x, y)
    case (Some(_), None) => {Finding(Breaking, DocumentGone, Artifact(AsyncApiFile))}
    case (None, Some(_)) => {Finding(Additive, DocumentNew, Artifact(AsyncApiFile))}
    case (None, None) => {}
  }

  // ---- Permissions

  datatype Permission = Permission(description: string, resource: string, action: string, group: Option<string>,
                                   deprecated: bool, replacement: Option<string>)

  datatype PermissionCatalog = PermissionCatalog(schemaVersion: string, permissions: map<string, Permission>)

  const PERMISSIONS := Artifact(PermissionsContents)

  function PermissionPath(id: string): Path {
    Entry(PERMISSIONS, PermissionsField, id)
  }

  function PermissionRemoved(k: string): Finding {
    Finding(Breaking, PermissionGone, PermissionPath(k))
  }

  function PermissionAdded(k: string): Finding {
    Finding(Additive, PermissionNew, PermissionPath(k))
  }

  function PermissionAt(k: string, b: Permission, c: Permission): set<Finding> {
    FieldDiff((b.resource, b.action), (c.resource, c.action), Finding(Breaking, PermissionChanged, PermissionPath(k)))
    + DeprecationDiff(b.deprecated, c.deprecated, PermissionPath(k), PermissionDeprecated, PermissionRevived)
    + FieldDiff((b.description, b.group, b.replacement), (c.description, c.group, c.replacement),
                Finding(BehavioralCompatible, PermissionMetadataChanged, PermissionPath(k)))
  }

  /** `compare_permissions`, on the catalogs by identifier. */
  function PermissionsDiff(b: PermissionCatalog, c: PermissionCatalog): set<Finding> {
    FieldDiff(b.schemaVersion, c.schemaVersion,
              Finding(Breaking, PermissionsVersionChanged, Part(PERMISSIONS, SchemaVersionField)))
    + KeyedDiff(b.permissions, c.permissions, PermissionRemoved, PermissionAdded, PermissionAt)
  }

  // ---- Capabilities

  datatype Capability = Capability(compiled: bool, runtimeAvailable: bool, minimumSdkVersion: string,
                                   authModes: set<string>, authRoles: set<string>)

  datatype CapabilityCatalog = CapabilityCatalog(schemaVersion: string, serviceVersion: string, profile: string,
                                                 capabilities: map<string, Capability>,
                                                 api: string, websocket: Option<string>, sse: Option<string>)

  const CAPABILITIES := Artifact(CapabilitiesContents)

  function CapabilityPath(id: string): Path {
    Entry(CAPABILITIES, CapabilitiesField, id)
  }

  function CompiledDiff(b: bool, c: bool, path: Path): set<Finding> {
    if b && !c then {Finding(Breaking, NoLongerCompiled, path)}
    else if !b && c then {Finding(Additive, NowCompiled, path)}
    else {}
  }

  function ModeRemoved(path: Path): string -> Finding {
    m => Finding(Breaking, AuthModeGone, Entry(path, AuthModesField, m))
  }

  function ModeAdded(path: Path): string -> Finding {
    m => Finding(Additive, AuthModeNew, Entry(path, AuthModesField, m))
  }

  function RoleRemoved(path: Path): string -> Finding {
    m => Finding(Breaking, AuthRoleGone, Entry(path, AuthRolesField, m))
  }

  function RoleAdded(path: Path): string -> Finding {
    m => Finding(Additive, AuthRoleNew, Entry(path, AuthRolesField, m))
  }

  function CapabilityAt(k: string, b: Capability, c: Capability): set<Finding> {
    var path := CapabilityPath(k);
    CompiledDiff(b.compiled, c.compiled, Part(path, CompiledField))
    + FieldDiff(b.runtimeAvailable, c.runtimeAvailable,
                Finding(BehavioralCompatible, AvailabilityChanged, Part(path, RuntimeAvailableField)))
    + FieldDiff(b.minimumSdkVersion, c.minimumSdkVersion,
                Finding(BehavioralCompatible, CapabilitySdkChanged, Part(path, MinimumSdkVersionField)))
    + NamesDiff(b.authModes, c.authModes, ModeRemoved(path), ModeAdded(path))
    + NamesDiff(b.authRoles, c.authRoles, RoleRemoved(path), RoleAdded(path))
  }

  function TransportDiff(b: Option<string>, c: Option<string>, name: Field): set<Finding> {
    var path := Part(Part(CAPABILITIES, TransportsField), name);
    match (b, c)
    case (Some(x), Some(y)) => FieldDiff(x, y, Finding(Breaking, TransportChanged, path))
    case (Some(_), None) => {Finding(Breaking, TransportGone, path)}
    case (None, Some(_)) => {Finding(Additive, TransportNew, path)}
    case (None, None) => {}
  }

  function TransportsDiff(b: CapabilityCatalog, c: CapabilityCatalog): set<Finding> {
    TransportDiff(Some(b.api), Some(c.api), ApiField)
    + TransportDiff(b.websocket, c.websocket, WebsocketField)
    + TransportDiff(b.sse, c.sse, SseField)
  }

  function CapabilityRemoved(k: string): Finding {
    Finding(Breaking, CapabilityGone, CapabilityPath(k))
  }

  function CapabilityAdded(k: string): Finding {
    Finding(Additive, CapabilityNew, CapabilityPath(k))
  }

  function CatalogFieldsDiff(b: CapabilityCatalog, c: CapabilityCatalog): set<Finding> {
    FieldDiff(b.schemaVersion, c.schemaVersion,
              Finding(Breaking, CapabilitiesVersionChanged, Part(CAPABILITIES, SchemaVersionField)))
    + FieldDiff(b.profile, c.profile, Finding(Breaking, CapabilitiesProfileChanged, Part(CAPABILITIES, ProfileField)))
    + FieldDiff(b.serviceVersion, c.serviceVersion,
                Finding(BehavioralCompatible, ServiceVersionChanged, Part(CAPABILITIES, ServiceVersionField)))
  }

  function CapabilityEntriesDiff(b: map<string, Capability>, c: map<string, Capability>): set<Finding> {
    KeyedDiff(b, c, CapabilityRemoved, CapabilityAdded, CapabilityAt)
  }

  /** `compare_capabilities`. */
  function CapabilitiesDiff(b: CapabilityCatalog, c: CapabilityCatalog): set<Finding> {
    CatalogFieldsDiff(b, c) + CapabilityEntriesDiff(b.capabilities, c.capabilities) + TransportsDiff(b, c)
  }

  // ---- The manifest

  datatype Manifest = Manifest(schemaVersion: string, profile: string, modules: set<string>,
                               serviceKitVersion: string, applicationVersion: string,
                               minimumSdkVersion: Option<string>, maximumSdkVersion: Option<string>,
                               required: map<string, bool>)

  const MANIFEST := Artifact(ManifestContents)

  function ModuleRemoved(m: string): Finding {
    Finding(Breaking, ModuleGone, Entry(MANIFEST, ModulesField, m))
  }

  function ModuleAdded(m: string): Finding {
    Finding(Additive, ModuleNew, Entry(MANIFEST, ModulesField, m))
  }

  function MetadataFinding(field: Field): Finding {
    Finding(BehavioralCompatible, MetadataChanged, Part(MANIFEST, field))
  }

  function RequirementFinding(k: string): Finding {
    Finding(BehavioralCompatible, RequirementChanged, Part(Entry(MANIFEST, ContractsField, k), RequiredField))
  }

  function MetadataDiff(b: Manifest, c: Manifest): set<Finding> {
    FieldDiff(b.serviceKitVersion, c.serviceKitVersion, MetadataFinding(ServiceKitVersionField))
    + FieldDiff(b.applicationVersion, c.applicationVersion, MetadataFinding(ApplicationVersionField))
    + FieldDiff(b.minimumSdkVersion, c.minimumSdkVersion, MetadataFinding(MinimumSdkVersionField))
    + FieldDiff(b.maximumSdkVersion, c.maximumSdkVersion, MetadataFinding(MaximumSdkVersionField))
    + set k | k in b.required && k in c.required && b.required[k] != c.required[k] :: RequirementFinding(k)
  }

  function ManifestFieldsDiff(b: Manifest, c: Manifest): set<Finding> {
    FieldDiff(b.schemaVersion, c.schemaVersion, Finding(Breaking, ManifestVersionChanged, Part(MANIFEST, SchemaVersionField)))
    + FieldDiff(b.profile, c.profile, Finding(Breaking, ManifestProfileChanged, Part(MANIFEST, ProfileField)))
  }

  /** `compare_manifest`; the artifact entries are kept by path. */
  function ManifestDiff(b: Manifest, c: Manifest): set<Finding> {
    ManifestFieldsDiff(b, c) + NamesDiff(b.modules, c.modules, ModuleRemoved, ModuleAdded) + MetadataDiff(b, c)
  }

  // ---- The contract set

  datatype ContractSet = ContractSet(asyncapi: Option<AsyncApi>, permissions: PermissionCatalog,
                                     capabilities: CapabilityCatalog, manifest: Manifest)

  /** `compare` without its OpenAPI part. */
  function ContractsDiff(b: ContractSet, c: ContractSet): set<Finding> {
    AsyncApiDiff(b.asyncapi, c.asyncapi) + PermissionsDiff(b.permissions, c.permissions)
    + CapabilitiesDiff(b.capabilities, c.capabilities) + ManifestDiff(b.manifest, c.manifest)
  }
}
