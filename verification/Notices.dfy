/** Everything the contract comparison can report: each notice has one code and one message. */
module Notices {

  datatype Notice =
    | TypeNarrowed | TypeWidened | TypeAdded | TypeRemoved | EnumNarrowed | EnumWidened | EnumAdded | EnumRemoved
    | UnionNarrowed | UnionWidened | UnionAdded | UnionRemoved | IntersectionNarrowed | IntersectionRelaxed
    | IntersectionAdded | IntersectionRemoved | ConstChanged | ConstAdded | ConstRemoved | NegationChanged
    | NegationAdded | NegationRemoved | FormatChanged | FormatAdded | FormatRemoved | ReferenceChanged | ItemsRemoved
    | ItemsAdded | LowerStricter | LowerRelaxed | LowerAdded | LowerRemoved | UpperStricter | UpperRelaxed
    | UpperAdded | UpperRemoved | AdditionalPermitted | AdditionalForbidden | AdditionalUnconstrained
    | AdditionalConstrained | AdditionalPermittedConstrained | AdditionalChanged | PropertyNowRequired
    | PropertyNowOptional | PropertyGone | PropertyNew | ShapeChanged | DocumentGone | DocumentNew | MessageGone
    | MessageNew | MessageNameChanged | WireNameChanged | VersionChanged | DirectionChanged | WireFieldChanged
    | MessageDeprecated | MessageRevived | SchemaGone | SchemaNew | ChannelGone | ChannelNew | AddressChanged
    | ChannelMessageGone | ChannelMessageNew | RouteGone | RouteNew | PermissionsVersionChanged | PermissionGone
    | PermissionNew | PermissionChanged | PermissionDeprecated | PermissionRevived | PermissionMetadataChanged
    | CapabilitiesVersionChanged | CapabilitiesProfileChanged | ServiceVersionChanged | CapabilityGone
    | CapabilityNew | NoLongerCompiled | NowCompiled | AvailabilityChanged | CapabilitySdkChanged | AuthModeGone
    | AuthModeNew | AuthRoleGone | AuthRoleNew | TransportChanged | TransportGone | TransportNew
    | ManifestVersionChanged | ManifestProfileChanged | ModuleGone | ModuleNew | MetadataChanged | RequirementChanged

  function Code(n: Notice): string {
    match n
    case TypeNarrowed | TypeAdded => "asyncapi.schema.type-narrowed"
    case TypeWidened | TypeRemoved => "asyncapi.schema.type-widened"
    case EnumNarrowed | EnumAdded => "asyncapi.schema.enum-narrowed"
    case EnumWidened | EnumRemoved => "asyncapi.schema.enum-widened"
    case UnionNarrowed | UnionAdded | IntersectionNarrowed | IntersectionAdded => "asyncapi.schema.composition-narrowed"
    case UnionWidened | UnionRemoved => "asyncapi.schema.composition-widened"
    case IntersectionRelaxed | IntersectionRemoved => "asyncapi.schema.composition-relaxed"
    case ConstChanged => "asyncapi.schema.const-changed"
    case ConstAdded => "asyncapi.schema.const-added"
    case ConstRemoved => "asyncapi.schema.const-removed"
    case NegationChanged => "asyncapi.schema.negation-changed"
    case NegationAdded => "asyncapi.schema.negation-added"
    case NegationRemoved => "asyncapi.schema.negation-removed"
    case FormatChanged => "asyncapi.schema.constraint-changed"
    case FormatAdded => "asyncapi.schema.constraint-added"
    case FormatRemoved | LowerRelaxed | LowerRemoved | UpperRelaxed | UpperRemoved => "asyncapi.schema.constraint-relaxed"
    case ReferenceChanged => "asyncapi.schema.reference-changed"
    case ItemsRemoved => "asyncapi.schema.items-relaxed"
    case ItemsAdded => "asyncapi.schema.items-narrowed"
    case LowerStricter | LowerAdded | UpperStricter | UpperAdded => "asyncapi.schema.constraint-narrowed"
    case AdditionalPermitted | AdditionalUnconstrained | AdditionalPermittedConstrained => "asyncapi.schema.additional-properties-relaxed"
    case AdditionalForbidden | AdditionalConstrained => "asyncapi.schema.additional-properties-narrowed"
    case AdditionalChanged => "asyncapi.schema.additional-properties-changed"
    case PropertyNowRequired => "asyncapi.schema.property-now-required"
    case PropertyNowOptional => "asyncapi.schema.property-now-optional"
    case PropertyGone => "asyncapi.schema.property-removed"
    case PropertyNew => "asyncapi.schema.property-added"
    case ShapeChanged => "asyncapi.schema.shape-changed"
    case DocumentGone => "asyncapi.document.removed"
    case DocumentNew => "asyncapi.document.added"
    case MessageGone => "asyncapi.message.component-removed"
    case MessageNew => "asyncapi.message.component-added"
    case MessageNameChanged => "asyncapi.message.name-changed"
    case WireNameChanged => "asyncapi.message.event-name-changed"
    case VersionChanged => "asyncapi.message.version-changed"
    case DirectionChanged => "asyncapi.message.direction-changed"
    case WireFieldChanged => "asyncapi.message.event-identity-field-changed"
    case MessageDeprecated => "asyncapi.message.deprecated"
    case MessageRevived => "asyncapi.message.deprecation-removed"
    case SchemaGone => "asyncapi.schema.component-removed"
    case SchemaNew => "asyncapi.schema.component-added"
    case ChannelGone => "asyncapi.channel.removed"
    case ChannelNew => "asyncapi.channel.added"
    case AddressChanged => "asyncapi.channel.address-changed"
    case ChannelMessageGone => "asyncapi.channel.message-removed"
    case ChannelMessageNew => "asyncapi.channel.message-added"
    case RouteGone => "asyncapi.message.route-removed"
    case RouteNew => "asyncapi.message.route-added"
    case PermissionsVersionChanged => "permissions.schema-version-changed"
    case PermissionGone => "permission.removed"
    case PermissionNew => "permission.added"
    case PermissionChanged => "permission.definition-changed"
    case PermissionDeprecated => "permission.deprecated"
    case PermissionRevived => "permission.deprecation-removed"
    case PermissionMetadataChanged => "permission.metadata-changed"
    case CapabilitiesVersionChanged => "capabilities.schema-version-changed"
    case CapabilitiesProfileChanged => "capabilities.profile-changed"
    case ServiceVersionChanged => "capabilities.service-version-changed"
    case CapabilityGone => "capability.removed"
    case CapabilityNew => "capability.added"
    case NoLongerCompiled => "capability.no-longer-compiled"
    case NowCompiled => "capability.compiled"
    case AvailabilityChanged => "capability.runtime-availability-changed"
    case CapabilitySdkChanged => "capability.minimum-sdk-version-changed"
    case AuthModeGone => "capability.auth-mode-removed"
    case AuthModeNew => "capability.auth-mode-added"
    case AuthRoleGone => "capability.auth-role-removed"
    case AuthRoleNew => "capability.auth-role-added"
    case TransportChanged => "capability.transport-location-changed"
    case TransportGone => "capability.transport-removed"
    case TransportNew => "capability.transport-added"
    case ManifestVersionChanged => "manifest.schema-version-changed"
    case ManifestProfileChanged => "manifest.profile-changed"
    case ModuleGone => "manifest.module-removed"
    case ModuleNew => "manifest.module-added"
    case MetadataChanged => "manifest.compatibility-metadata-changed"
    case RequirementChanged => "manifest.artifact-requirement-changed"
  }

  function Message(n: Notice): string {
    match n
    case TypeNarrowed => "schema accepts fewer JSON types"
    case TypeWidened => "schema accepts additional JSON types"
    case TypeAdded => "schema added a JSON type constraint"
    case TypeRemoved => "schema removed a JSON type constraint"
    case EnumNarrowed => "schema enum accepts fewer values"
    case EnumWidened => "schema enum accepts additional values"
    case EnumAdded => "schema added an enum constraint"
    case EnumRemoved => "schema removed an enum constraint"
    case UnionNarrowed => "schema union accepts fewer alternatives"
    case UnionWidened => "schema union accepts additional alternatives"
    case UnionAdded => "schema union constraint was added"
    case UnionRemoved => "schema union constraint was removed"
    case IntersectionNarrowed => "schema intersection added or changed constraints"
    case IntersectionRelaxed => "schema intersection removed constraints"
    case IntersectionAdded => "schema intersection constraint was added"
    case IntersectionRemoved => "schema intersection constraint was removed"
    case ConstChanged => "schema constant changed"
    case ConstAdded => "schema added a constant constraint"
    case ConstRemoved => "schema removed a constant constraint"
    case NegationChanged => "schema negation constraint changed"
    case NegationAdded => "schema negation constraint was added"
    case NegationRemoved => "schema negation constraint was removed"
    case FormatChanged => "schema constraint changed incompatibly"
    case FormatAdded => "schema constraint was added"
    case FormatRemoved => "schema constraint was removed"
    case ReferenceChanged => "schema reference changed"
    case ItemsRemoved => "array item schema constraint was removed"
    case ItemsAdded => "array item schema constraint was added"
    case LowerStricter => "schema lower bound became stricter"
    case LowerRelaxed => "schema lower bound was relaxed"
    case LowerAdded => "schema lower bound was added"
    case LowerRemoved => "schema lower bound was removed"
    case UpperStricter => "schema upper bound became stricter"
    case UpperRelaxed => "schema upper bound was relaxed"
    case UpperAdded => "schema upper bound was added"
    case UpperRemoved => "schema upper bound was removed"
    case AdditionalPermitted => "schema now permits additional properties"
    case AdditionalForbidden => "schema no longer permits additional properties"
    case AdditionalUnconstrained => "additional-property schema constraint was removed"
    case AdditionalConstrained => "additional-property schema constraint was added"
    case AdditionalPermittedConstrained => "schema now permits constrained additional properties"
    case AdditionalChanged => "additional-property schema changed incompatibly"
    case PropertyNowRequired => "schema property changed from optional to required"
    case PropertyNowOptional => "schema property changed from required to optional"
    case PropertyGone => "schema property was removed"
    case PropertyNew => "optional schema property was added"
    case ShapeChanged => "schema shape changed incompatibly"
    case DocumentGone => "public AsyncAPI document was removed"
    case DocumentNew => "public AsyncAPI document was added"
    case MessageGone => "public AsyncAPI message component was removed or renamed"
    case MessageNew => "public AsyncAPI message component was added"
    case MessageNameChanged => "public AsyncAPI message name changed"
    case WireNameChanged => "public event wire name changed"
    case VersionChanged => "public event version changed"
    case DirectionChanged => "public message direction changed"
    case WireFieldChanged => "public event wire identity field changed"
    case MessageDeprecated => "AsyncAPI message was deprecated"
    case MessageRevived => "AsyncAPI message deprecation was removed"
    case SchemaGone => "public AsyncAPI schema name was removed or renamed"
    case SchemaNew => "public AsyncAPI schema name was added"
    case ChannelGone => "public AsyncAPI channel was removed or renamed"
    case ChannelNew => "public AsyncAPI channel was added"
    case AddressChanged => "public AsyncAPI channel address changed"
    case ChannelMessageGone => "message was removed from a public AsyncAPI channel"
    case ChannelMessageNew => "message was added to a public AsyncAPI channel"
    case RouteGone => "public message channel or direction was removed"
    case RouteNew => "public message channel and direction was added"
    case PermissionsVersionChanged => "permission catalog schema version changed"
    case PermissionGone => "public permission identifier was removed or renamed"
    case PermissionNew => "public permission identifier was added"
    case PermissionChanged => "permission resource or action changed"
    case PermissionDeprecated => "public permission was deprecated"
    case PermissionRevived => "permission deprecation was removed"
    case PermissionMetadataChanged => "permission presentation or replacement metadata changed"
    case CapabilitiesVersionChanged => "capability catalog schema version changed"
    case CapabilitiesProfileChanged => "capability profile changed"
    case ServiceVersionChanged => "capability service version changed"
    case CapabilityGone => "public capability identifier was removed"
    case CapabilityNew => "public capability identifier was added"
    case NoLongerCompiled => "compiled public capability was removed"
    case NowCompiled => "public capability became compiled"
    case AvailabilityChanged => "public capability runtime availability changed"
    case CapabilitySdkChanged => "capability minimum SDK version changed"
    case AuthModeGone => "supported capability authentication mode was removed"
    case AuthModeNew => "supported capability authentication mode was added"
    case AuthRoleGone => "supported capability authentication role was removed"
    case AuthRoleNew => "supported capability authentication role was added"
    case TransportChanged => "public transport location changed"
    case TransportGone => "public transport location was removed"
    case TransportNew => "public transport location was added"
    case ManifestVersionChanged => "contract manifest schema version changed"
    case ManifestProfileChanged => "contract manifest profile changed"
    case ModuleGone => "public contract module was removed"
    case ModuleNew => "public contract module was added"
    case MetadataChanged => "contract compatibility version metadata changed"
    case RequirementChanged => "contract artifact requirement changed"
  }
}
