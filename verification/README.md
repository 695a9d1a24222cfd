# Omnius automation, modelled and proved

Omnius generates service projects and keeps their specifications, contracts and
releases in step. The code that decides things in that work is small and exact:
it classifies contract changes, scans key material byte by byte, orders plans and
modules, rewrites manifests and marked regions of source files, refreshes an
archive of digests, keeps a ledger of evidence for each generated profile, and
writes and checks a bill of materials. This project models that code in Dafny and
proves what it is for.

The modules, by area:

- **Contract compatibility**: `SchemaDiff` (the comparison as a function),
  `Schema` (what a schema accepts), `SchemaSoundness`, `SchemaOrder`,
  `SchemaLimits`, `SchemaExact` (which changes break and which add, told on the JSON
  values), `SchemaCompare` (the recursive code that pushes findings),
  `ContractDiff`, `ContractOrder`, `ContractExact` (the same for a whole contract set,
  finding by finding), `ContractCompare` (the code that pushes the findings of a whole
  contract set), `DocumentSoundness`, with `Notices`, `Findings`, `Report`, `Pointer`,
  `Json`.
- **Byte scanners**: `Bytes`, `OpenPgp`, `OpenPgpPackets`, `MarkerSearch`, `Der`.
- **Evidence ledger**: `Ledger` (what each run records and means), `LedgerExact`
  (what a ledger may show, and the classification read off it), `ProfileRun` (the run
  itself).
- **Graphs and orders**: `TaskGraph`, `TaskSearch`, `GreedyOrder`,
  `ExtensionPlans`, `RuntimeModules`, `Overlay`, `ProfileChains`,
  `ProfileResolvers`.
- **Manifest texts**: `ArrayScanner`, `RecordReader` (a JSON reader as reference),
  `ManifestText`, `ManifestReadBack`, `ManifestCounts`, `ManifestMarkers` (where
  markers cannot stand), `ManifestSlots` (what one edit does to the other places),
  `ManifestRefresh` (the whole refresh of a text), `ManifestValues` (texts and the
  values of the archive), `ManifestLayout` (the texts spelled out).
- **Archive**: `Archive`, `ArchiveOrder` (the order of the walk), `ArchiveExact` (what
  a generated file holds), `ArchiveLimits` (which inventories can be served), `ArchiveRun`, `ArchiveIntegrity`, with
  `FileNames` (what is read off the name of a file).
- **Regions and dates**: `Lines`, `ManagedRegions`, `RegionText` (a region spelled out),
  `Calendar`, `DateText`.
- **Bill of materials**: `Sbom`, `SbomLaws`, `SbomExact` (what components and edges are),
  `SbomRun`.
- Shared: `Seqs`, `Text`, `Sorting`, `Keyed`.

## Choices of the model

- JSON numbers carry their literal text, because two numbers are equal when their
  texts are (the parser keeps arbitrary precision); bounds compare as reals, so
  the rounding of 64-bit floats is not modelled. Arrays compared as canonical sets
  are sets of values. Reports hold findings as structured values; their text is
  made in `Report`, where order and repetition are settled.
- A schema means `Schema.Accepts` under an interpretation of `$ref`, `pattern`,
  `format` and `multipleOf`, which the comparison only tests for equality. Only the
  keywords that are compared have a meaning.
- Answers of commands, file hashes and other oracles are arbitrary values: a
  `World` for the ledger, `Tools` for the archive, `Naming` for references. Check
  names, paths of generated files and singled-out ids are constructors instead of
  strings. Details, commands and criteria attached to a ledger entry are not kept.
- A digest function is any function; it is assumed injective only where a lemma
  says so, and to yield 64 hexadecimal digits where a digest is written in place.
- Text is a sequence of characters. The scanners that work on bytes of UTF-8 only
  look for ASCII characters, so positions of brackets and line ends agree.
- Sequences enumerate hash maps and sets in an arbitrary order, given as an
  argument; the contracts then show that the order does not matter, or exactly when
  it does not.
- In `Archive` a manifest is a value: a frame of text, records and counts.
  `ManifestValues` shows that its text is refreshed in place accordingly.
- What the OpenAPI part of a comparison finds is an argument of `ContractCompare.Compare`.
- An ordered map is a strictly ascending list of its entries.

## Where a property needs a condition

- A report without breaks does not always mean that old values stay valid. The
  exact conditions are `SchemaLimits.AddedPropertySoundExactly` and
  `SchemaLimits.AddedAlternativeSoundExactly`; `SchemaSoundness.Sound` holds where
  they are met at every level.
- A report can break although every old value stays valid: `minLength`, `minItems` or
  `minProperties` of 0 where there was none. `SchemaExact.BoundsExactly` says that for one
  bound the report breaks exactly when a value is lost, apart from these.
- Non-breaking is not always transitive: the middle schema may leave
  `additionalProperties` out between two outer values that differ, one of them
  neither a boolean nor an object. Validation lets such a value through beside a
  `$ref`. `SchemaOrder.NonBreakingTransitive`, `ContractOrder.AsyncApiChain` and
  `ContractOrder.ContractsTransitive` say that steps compose exactly when no such gap
  occurs at any place below the three; `SchemaOrder.IllTypedNotTransitive` has the
  inputs.
- A browser smoke test is recorded twice on a web profile without an install:
  `Ledger.OnceExactly`.
- A profile may be assembled although its run fails:
  `Ledger.AssembledWithoutSuccess`. `Ledger.AssembledSucceedsExactly` says what an
  assembled run has to answer well besides, in order to succeed.
- Plans can be refused although an order exists, when one of them carries the id of the
  base bundle at another version: `ExtensionPlans.OvertakenBaseRefused` and
  `ExtensionPlans.OtherVersionRefused` are the two ways. `ExtensionPlans.LoadPlans`
  and `ExtensionPlans.LoadableExactly` say exactly which plans are loaded.
- A second refresh of the archive can write again: base paths are walked in the order
  of a hash set, and documents with one specification id are listed as they come.
  `ArchiveOrder.SecondRunExactly` says that nothing is written, however the set is
  walked, exactly when no two documents of the base share an id.
- A manifest that lists what is written with it or after it keeps a false digest:
  `ArchiveLimits.OutOfRank`. `ArchiveLimits.SettlesExactly` says that inventories are
  served, whatever the tools and files, exactly when they list only what comes before.
- A managed region whose id spells out the start of a digest is lost by the rewrite:
  `ManagedRegions.LostMarker`. `ManagedRegions.ParsesAgainExactly` has the exact
  condition for every content, `ManagedRegions.ParsesAgainPlain` says it on the old line
  for content without markers, and every id without an equals sign meets it
  (`ManagedRegions.ReplaceRegion`).
- The check of the archive can fail right after a refresh, although the refresh wrote every
  file as it has to be. `ArchiveIntegrity.IntactExactly` says exactly when it does not, and
  `ArchiveIntegrity.RefreshVerifies` says it of the archive before the refresh:
  every visible document has proper front matter with an id of its own; no path is
  taken twice; the base lists exactly the other visible files, so no hidden one, since the
  check does not walk hidden files; every Markdown file of the base has a lower-case
  extension and is claimed by no further suite; and no document of the base lies in a directory
  whose name starts like that of a numbered specification. The last one is there because
  the refresh and the check count numbered specifications differently
  (`ArchiveIntegrity.NumberedAgreeExactly`); `ArchiveIntegrity.NumberedDirectory` has
  archives that fail by it alone, `01-notes/a.md` among their documents.
- A profile that extends the empty string extends nothing for the list resolvers, and an
  unknown profile for the set resolver: `ProfileResolvers.EmptyExtends`.
  `ProfileResolvers.SetsAgreeExactly` says when they agree; where no profile is named by
  the empty string, exactly on the chains without such a link
  (`ProfileResolvers.SetsAgreeNamed`).
- The bill of materials that is written is accepted exactly when no package resolves
  two dependencies to one package and the workspace members are the packages without
  a source: `SbomLaws.WrittenAccepted`. `SbomLaws.PathRefused` has a lock file whose
  written bill is refused, with a path dependency outside the workspace.

## Model

| member | source | states |
|---|---|---|
| `SchemaSoundness.CompatibleIffNonBreaking` | xtask/src/contract_diff.rs:1781-1837 | the findings of a comparison hold no break, at any depth, exactly when the path-free verdict `NonBreaking` holds |
| `SchemaSoundness.NonBreakingSound` | xtask/src/contract_diff.rs:1781-2369 | a non-breaking change that is guarded at every level keeps every accepted value accepted, by induction over all keywords, with references that mean the same or grow where they occur positively |
| `SchemaSoundness.Sound` | xtask/src/contract_diff.rs:1781-2369 | a report without breaks on a guarded pair keeps every accepted JSON value accepted |
| `SchemaSoundness.RefFreeMeaning` | xtask/src/contract_diff.rs:2030-2045 | a schema without references means the same whatever references mean |
| `SchemaSoundness.PositiveRefsGrow` | xtask/src/contract_diff.rs:2030-2045 | a schema whose references stand in positive places accepts no less when references accept more |
| `SchemaSoundness.OneOfSound` | xtask/src/contract_diff.rs:2197-2299 | unchanged, unrepeated alternatives of a oneOf still select exactly one branch |
| `SchemaSoundness.MembersSound` | xtask/src/contract_diff.rs:2301-2369 | properties, added properties and additionalProperties together accept every object member they accepted before |
| `SchemaOrder.Reflexive` | xtask/src/contract_diff.rs:1781-1837 | comparing a schema with itself yields no finding at all |
| `SchemaOrder.NonBreakingTransitive` | xtask/src/contract_diff.rs:1781-2369 | two non-breaking steps compose to a non-breaking one exactly when `additionalProperties` has no gap here or at the same place below all three schemas |
| `SchemaOrder.WellTypedNoGap` | xtask/src/contract_diff.rs:1341-1392 | schemas whose additionalProperties are booleans or objects leave no gap, at any depth |
| `SchemaOrder.Transitive` | xtask/src/contract_diff.rs:1781-2369 | two reports without breaks compose to one without breaks exactly when there is no gap |
| `SchemaOrder.AdditionalTransitiveExactly` | xtask/src/contract_diff.rs:2301-2369 | two silent changes of additionalProperties compose exactly unless the middle schema leaves the keyword out and the outer two differ with an ill-typed value among them |
| `SchemaOrder.IllTypedNotTransitive` | xtask/src/contract_diff.rs:1341-1392 | beside a reference, where validation does not look, dropping any ill-typed value and adding another breaks nothing while the direct change breaks |
| `SchemaOrder.AdditionsMirror` | xtask/src/contract_diff.rs:1781-2369 | every addition at a path is a break at that path when the sides are swapped |
| `SchemaOrder.BreaksOrAdds` | xtask/src/contract_diff.rs:1781-2369 | every schema finding is a break or an addition |
| `SchemaOrder.MutuallyCompatible` | xtask/src/contract_diff.rs:1781-2369 | two schemas are compatible in both directions exactly when their comparison has no finding either way |
| `SchemaLimits.AddedPropertySoundExactly` | xtask/src/contract_diff.rs:1916-1955 | adding a property never breaks the report, and is sound exactly when what the object allowed under that name is contained in the new schema |
| `SchemaLimits.OpenAdditionLosesValues` | xtask/src/contract_diff.rs:1916-1955 | a property added to an open object loses a value as soon as its schema rejects one |
| `SchemaLimits.AddedAlternativeSoundExactly` | xtask/src/contract_diff.rs:2197-2299 | adding a oneOf alternative never breaks the report, and is sound exactly when the addition accepts nothing the baseline accepts |
| `SchemaLimits.NegatedReferenceFlips` | xtask/src/contract_diff.rs:2197-2299 | under not, a reference that grows makes an unchanged schema lose exactly the values gained |
| `SchemaExact.KeywordExactly` | xtask/src/contract_diff.rs:1839-2369 | for each of the 23 keywords and any two values: no break exactly when the candidate relaxes the baseline, told on the JSON (types and members kept, bounds not raised or lowered, constants as before or gone), and an addition exactly when it relaxes and the way back does not |
| `SchemaExact.TypesExactly` | xtask/src/contract_diff.rs:1839-1886 | types, as a name or as a list, may only be added |
| `SchemaExact.AdditionalExactly` | xtask/src/contract_diff.rs:2301-2369 | the table of additionalProperties: absent, true, false, a schema or something else, on either side |
| `SchemaExact.LocallyExactly` | xtask/src/contract_diff.rs:1781-1955 | one level has no break exactly when no member is newly required, no property is lost and every keyword is relaxed |
| `SchemaExact.NonBreakingExactly` | xtask/src/contract_diff.rs:1781-2369 | by induction over both schemas: the verdict without paths is that every common place is loosened |
| `SchemaExact.CompatibleExactly` | xtask/src/contract_diff.rs:1781-2369 | a report has no break exactly when the schema is loosened at every common place, stated without the comparison |
| `SchemaExact.ReportExactly` | xtask/src/contract_diff.rs:1781-2369 | the report has a break, or an addition, at a path exactly when required members, properties or the keyword at that place call for it, at any depth |
| `SchemaExact.KeywordNotices` | xtask/src/contract_diff.rs:1839-2299 | which notice a break or an addition of a keyword carries |
| `SchemaExact.AdditionalNotices` | xtask/src/contract_diff.rs:2301-2369 | which notice a change of additionalProperties carries |
| `SchemaExact.BoundsContained` | xtask/src/contract_diff.rs:2113-2191 | for schemas of one bound: every old value stays accepted exactly when the bound is relaxed or idle, with the lost value constructed otherwise |
| `SchemaExact.BoundsExactly` | xtask/src/contract_diff.rs:2047-2191 | for each of the ten bounds: the report breaks exactly when a value is lost, and adds exactly when one is gained, apart from new lower bounds of 0 on lengths and counts |
| `SchemaCompare.CompareNames` | xtask/src/contract_diff.rs:1888-1955 | the two loops push exactly one finding for each name that is gone and each that is new |
| `SchemaCompare.CompareLocally` | xtask/src/contract_diff.rs:1781-1837 | one level pushes exactly the findings of required, properties and every keyword |
| `SchemaCompare.CompareSchema` | xtask/src/contract_diff.rs:1781-1837 | the recursive code adds exactly the findings of the comparison function to the report, whatever order it visits sub-schemas in |
| `SchemaCompare.CompareChildren` | xtask/src/contract_diff.rs:1781-1837 | the recursion over common properties, items and additionalProperties adds exactly the findings of those pairs |
| `SchemaCompare.Compare` | xtask/src/contract_diff.rs:1781-1837 | one pair of schemas, compared and normalized: the lines are the canonical text of the difference and free of breaks exactly when the candidate is loosened at every common place (`SchemaExact.Loosened`) |
| `ContractOrder.ContractsReflexive` | xtask/src/contract_diff.rs:1495-2771 | a contract set compared with itself yields no finding |
| `ContractOrder.AsyncApiChain` | xtask/src/contract_diff.rs:1495-1779 | compatible steps of an AsyncAPI document compose exactly when no payload or component schema has a gap |
| `ContractOrder.WellTypedNoGap` | xtask/src/contract_diff.rs:1341-1392 | documents whose additionalProperties are booleans or objects leave no gap |
| `ContractOrder.PermissionsChain` | xtask/src/contract_diff.rs:2398-2471 | compatible steps of a permission catalog compose |
| `ContractOrder.CapabilitiesChain` | xtask/src/contract_diff.rs:2473-2678 | compatible steps of a capability catalog compose, transports included |
| `ContractOrder.ManifestChain` | xtask/src/contract_diff.rs:2680-2771 | compatible steps of a manifest compose |
| `ContractOrder.ContractsTransitive` | xtask/src/contract_diff.rs:1495-2771 | compatible steps of whole contract sets compose exactly when no schema has a gap |
| `ContractOrder.AsyncApiMirror` | xtask/src/contract_diff.rs:1495-1779 | every addition to an AsyncAPI document is a break at the same path in reverse |
| `ContractOrder.PermissionsMirror` | xtask/src/contract_diff.rs:2398-2471 | every added permission is a break at the same path in reverse |
| `ContractOrder.CapabilitiesMirror` | xtask/src/contract_diff.rs:2473-2678 | every added capability, mode, role or transport is a break at the same path in reverse |
| `ContractOrder.ManifestMirror` | xtask/src/contract_diff.rs:2680-2771 | every added module is a break at the same path in reverse |
| `ContractOrder.ContractsMirror` | xtask/src/contract_diff.rs:1495-2771 | every addition between contract sets is a break at the same path in reverse |
| `ContractExact.PermissionsExactly` | xtask/src/contract_diff.rs:2398-2471 | a finding is reported on permissions exactly when version, resource, action, deprecation or metadata changed, or an entry went or came, with its class, notice and place |
| `ContractExact.PermissionsCompatible` | xtask/src/contract_diff.rs:2398-2471 | nothing breaks exactly when the version stays and every permission keeps its resource and action |
| `ContractExact.CapabilitiesExactly` | xtask/src/contract_diff.rs:2473-2678 | the same list of causes for capability catalogs: fields, entries, compiled, availability, modes, roles and transports |
| `ContractExact.CapabilitiesCompatible` | xtask/src/contract_diff.rs:2473-2678 | nothing breaks exactly when version and profile stay, every capability stays compiled with its modes and roles, and every transport stays as it is |
| `ContractExact.ManifestExactly` | xtask/src/contract_diff.rs:2680-2771 | the same for manifests: version, profile, modules, metadata and requirements |
| `ContractExact.ManifestCompatible` | xtask/src/contract_diff.rs:2680-2771 | nothing breaks exactly when version and profile stay and no module goes |
| `ContractExact.MessagesExactly` | xtask/src/contract_diff.rs:1495-1641 | the same for messages: name, wire name and field, version, direction, deprecation, and the payload |
| `ContractExact.ChannelsExactly` | xtask/src/contract_diff.rs:1679-1736 | the same for channels: address and messages |
| `ContractExact.RoutesExactly` | xtask/src/contract_diff.rs:1738-1779 | a route of a message that is gone breaks, a new one adds, and nothing else is reported on routes |
| `ContractExact.DocumentExactly` | xtask/src/contract_diff.rs:1495-1779 | the same for whole AsyncAPI documents, a missing or new one included |
| `ContractExact.DocumentCompatible` | xtask/src/contract_diff.rs:1495-1779 | nothing breaks exactly when messages, component schemas, channels and routes are kept, schemas loosened |
| `ContractExact.ContractsExactly` | xtask/src/contract_diff.rs:1495-2771 | every finding on two contract sets has one of these causes, and every cause is reported |
| `ContractExact.ContractsCompatible` | xtask/src/contract_diff.rs:1495-2771 | a contract set is compatible exactly when everything that the baseline promises is kept, stated without the comparison |
| `ContractCompare.CompareMessage` | xtask/src/contract_diff.rs:1562-1641 | one message pushes exactly the findings of its header fields and of its payload, in any state of the report |
| `ContractCompare.CompareMessages` | xtask/src/contract_diff.rs:1495-1560 | the loop over the messages adds exactly what is gone, new or changed among them, whatever order the names come in |
| `ContractCompare.CompareSchemas` | xtask/src/contract_diff.rs:1643-1677 | the loop over the component schemas adds exactly what is gone, new or changed among them |
| `ContractCompare.CompareChannels` | xtask/src/contract_diff.rs:1679-1736 | the loop over the channels adds exactly what is gone, new or changed among addresses and messages |
| `ContractCompare.CompareAsyncApi` | xtask/src/contract_diff.rs:1495-1560 | adds exactly the findings of the AsyncAPI comparison, a missing or new document included |
| `ContractCompare.ComparePermissions` | xtask/src/contract_diff.rs:2398-2471 | adds exactly the findings of the permission comparison: those whose cause `ContractExact.PermissionReported` spells out |
| `ContractCompare.CompareCapabilities` | xtask/src/contract_diff.rs:2473-2579 | adds exactly the findings of the capability comparison, fields, entries and transports |
| `ContractCompare.CompareTransport` | xtask/src/contract_diff.rs:2648-2678 | a transport that goes breaks, one that comes is an addition, a changed one breaks |
| `ContractCompare.CompareManifest` | xtask/src/contract_diff.rs:2680-2771 | adds exactly the findings of the manifest comparison |
| `ContractCompare.Compare` | xtask/src/contract_diff.rs:227-259 | with whatever the OpenAPI part finds, the finished lines of a whole contract set depend on the set of findings alone, increase strictly, and show no break exactly when the OpenAPI part has none and the baseline is kept (`ContractExact.ContractsKept`) |
| `DocumentSoundness.ComponentsKept` | xtask/src/contract_diff.rs:1643-1677 | a compatible document change keeps every named component schema, with a non-breaking comparison |
| `DocumentSoundness.TargetReadBack` | xtask/src/contract_diff.rs:1316-1339 | every component, and every property inside one at any depth, is named by a reference, which reads back as it |
| `DocumentSoundness.ReachFollows` | xtask/src/contract_diff.rs:1888-1955 | a property found inside a schema is found inside one that follows it without a break, and follows it likewise |
| `DocumentSoundness.ReferencesGrow` | xtask/src/contract_diff.rs:1643-1677 | references to component schemas and to properties inside them, followed to any depth, accept no less after a compatible change |
| `DocumentSoundness.MessagesKept` | xtask/src/contract_diff.rs:1562-1641 | a compatible change keeps every message and its payload non-breaking |
| `DocumentSoundness.DocumentSound` | xtask/src/contract_diff.rs:1495-1779 | every payload a message accepted is still accepted, references resolved inside each document |
| `Pointer.UnescapePointer` | xtask/src/contract_diff.rs:1478-1493 | the loop computes the unescape function, or fails where an escape is malformed |
| `Pointer.EscapeHasNoSlash` | xtask/src/contract_diff.rs:2777-2779 | the two-pass escape emits no slash |
| `Pointer.UnescapeEscape` | xtask/src/contract_diff.rs:2777-2779 | unescaping an escaped token yields the token, for every string |
| `Pointer.EscapeUnescape` | xtask/src/contract_diff.rs:1478-1493 | escaping inverts every successful unescape of a slash-free token |
| `Pointer.ReadableExactly` | xtask/src/contract_diff.rs:1478-1493 | a slash-free token can be unescaped exactly when it is the escape of some string |
| `Pointer.EscapeInjective` | xtask/src/contract_diff.rs:2777-2779 | different tokens escape differently |
| `Pointer.EscapeExactly` | xtask/src/contract_diff.rs:2777-2779 | the escape works character by character: a tilde becomes `~0`, a slash `~1`, everything else stays |
| `Pointer.ReferenceRoundTrip` | xtask/src/contract_diff.rs:1471-1476 | any channel and message pair is recovered from its escaped reference |
| `Report.NormalizedIsCanonical` | xtask/src/contract_diff.rs:131-141 | normalizing keeps the set of findings and makes it strictly increasing by path, code, class and message |
| `Report.NormalizedByMembers` | xtask/src/contract_diff.rs:131-141 | two reports normalize to the same list exactly when they hold the same findings |
| `Report.NormalizedInOrder` | xtask/src/contract_diff.rs:41-60 | a finished report goes by path, then code, then from additive to breaking, then message; errors are exactly what breaks, infos exactly what adds |
| `Report.InconsistentNotIncreasing` | xtask/src/contract_diff.rs:52-60 | without severity following from the class, twins survive and the order is not strict |
| `Report.SameFindingsSameLines` | xtask/src/contract_diff.rs:131-141 | the finished text depends on the set of findings alone |
| `Report.RenderedCompatible` | xtask/src/contract_diff.rs:116-122 | the text shows a break exactly when a finding is one |
| `Report.Report.Push` | xtask/src/contract_diff.rs:82-97 | pushing appends one finding |
| `Report.Report.Normalize` | xtask/src/contract_diff.rs:131-141 | the lines are canonical and keep the verdict |
| `Report.Report.IsCompatible` | xtask/src/contract_diff.rs:116-122 | true exactly when no finding breaks |
| `OpenPgp.ReadLength` | supply-chain/check-material.py:332-349 | reads the new-format length at the cursor and moves past it, or reports too few bytes |
| `OpenPgp.NewPacketRound` | supply-chain/check-material.py:360-383 | one round over a new-format packet moves the cursor forward inside the file and agrees with the walk |
| `OpenPgp.SkipRound` | supply-chain/check-material.py:375-382 | the inner loop ends behind the last partial chunk or reports a truncated one |
| `OpenPgp.OldPacketRound` | supply-chain/check-material.py:385-405 | one round over an old-format packet moves the cursor forward inside the file and agrees with the walk |
| `OpenPgp.ContainsSecretKey` | supply-chain/check-material.py:352-406 | the cursor loop terminates on every file, never passes its end, and computes the walk |
| `OpenPgpPackets.WalkerExactOnFiles` | supply-chain/check-material.py:352-406 | on every file the answer is yes exactly when complete packets lead up to a secret key packet or the first chunk of one; tags, versions, length widths and chunk sizes are those of sections 4.2.1, 4.2.2 and 4.3 of RFC 4880, written out as numbers |
| `OpenPgpPackets.WalkerExactOnPackets` | supply-chain/check-material.py:352-406 | on every encoded packet list (sections 4.2.1 and 4.2.2 of RFC 4880, all length forms) the answer is yes exactly when a packet of tag 5 or 7 starts with version 3 to 6 |
| `OpenPgpPackets.OldLengthRead` | supply-chain/check-material.py:385-405 | the old-format length types 0, 1 and 2 are read as one, two and four octets, the first octet highest |
| `OpenPgpPackets.ShiftedExactly` | supply-chain/check-material.py:332-349 | a partial chunk of the exponent in its length octet has the size of one shifted left by it |
| `OpenPgpPackets.PacketScans` | supply-chain/check-material.py:352-406 | the walk steps over a whole packet, or stops at it, according to its tag and body |
| `MarkerSearch.WindowSeesAll` | supply-chain/check-material.py:226-234 | with an overlap one short of the longest marker, a marker occurs in what was read exactly when it occurred before or in the window |
| `MarkerSearch.TailOfTail` | supply-chain/check-material.py:226-234 | the kept overlap is always the tail of everything read |
| `MarkerSearch.ContainsPrivateMarker` | supply-chain/check-material.py:226-234 | chunked search finds a marker exactly when the whole content holds one, for every split |
| `Der.ReadTlv` | supply-chain/check-material.py:237-260 | returns the one element lying at the offset before the limit, and nothing exactly when there is none |
| `Der.EncodedLies` | supply-chain/check-material.py:237-260 | an element whose length is written in the fewest bytes lies wherever it was put |
| `Der.LiesOnce` | supply-chain/check-material.py:237-260 | at most one element lies at an offset |
| `Ledger.RecordedNames` | xtask/src/profiles.rs:448-587 | over every run the ledger holds exactly the expected names, once each, plus one browser smoke test on a web run without an install |
| `Ledger.OnceExactly` | xtask/src/profiles.rs:1290-1396 | the ledger is a permutation of the expected names exactly unless a web profile fails its workspace or install |
| `Ledger.PassedExactly` | xtask/src/profiles.rs:633-637 | a check is passed in the ledger exactly when it is expected and its own outcome is a pass |
| `Ledger.SuccessExactly` | xtask/src/profiles.rs:523-527 | a run succeeds exactly when every expected and needed check passes |
| `Ledger.SuccessMeans` | xtask/src/profiles.rs:448-587 | a run succeeds exactly when every question to the world is answered well, no module needs the application and no service is selected |
| `Ledger.SuccessRecordsOnce` | xtask/src/profiles.rs:448-587 | success implies each expected name exactly once, no application-required module and no runtime dependency |
| `Ledger.SuccessState` | xtask/src/profiles.rs:646-688 | a successful run is assembled when some module registers something, compiled otherwise |
| `Ledger.AssembledNeedsNoService` | xtask/src/profiles.rs:646-688 | assembled implies no external service, no application requirement and every process check passed |
| `Ledger.AssembledSucceedsExactly` | xtask/src/profiles.rs:646-688 | an assembled run succeeds exactly when the repeated rendering, its comparison, the metadata, the doctor with its catalog and the cleanup are answered well, and on the web every web check |
| `Ledger.AssembledWithoutSuccess` | xtask/src/profiles.rs:646-688 | an assembled profile whose run does not succeed, for every module id |
| `LedgerExact.StatusExactly` | xtask/src/profiles.rs:448-587 | the ledger shows a status for a check exactly when it is the outcome of that check |
| `LedgerExact.RunLawful` | xtask/src/profiles.rs:690-1353 | which checks are tried, skipped and blocked, read off the ledger: each follows the check before it; the process is skipped without a description or while a module awaits the application, and blocked by external services; what is tried passes exactly when its command does |
| `LedgerExact.SmokeExactly` | xtask/src/profiles.rs:482-501 | the browser smoke test: blocked, passed, failed or skipped, by the plan, the awaiting modules and the install |
| `LedgerExact.EntriesShaped` | xtask/src/profiles.rs:1559-1613 | every entry is required except an unselected smoke test, executed exactly when passed or failed, and a success exactly when passed |
| `LedgerExact.ModulesExactly` | xtask/src/profiles.rs:879-909 | a module awaits the application, or registers something, exactly when the plan has one that the catalog says so of |
| `LedgerExact.StateExactly` | xtask/src/profiles.rs:646-688 | the classification read off the ledger: selected without a rendering, generated without a passed test, assembled exactly when nine named checks passed besides and a module of the plan registers something, compiled otherwise |
| `ProfileRun.Checks.Record` | xtask/src/profiles.rs:1590-1613 | appends one executed, required entry and returns its result |
| `ProfileRun.Checks.RecordSkipped` | xtask/src/profiles.rs:1575-1589 | appends one skipped entry |
| `ProfileRun.Checks.RecordBlocked` | xtask/src/profiles.rs:1559-1574 | appends one blocked, required entry |
| `ProfileRun.Checks.SkipChecks` | xtask/src/profiles.rs:1382-1396 | appends one skipped entry for each name, in order |
| `ProfileRun.Checks.FillMissing` | xtask/src/profiles.rs:510-518 | afterwards every expected name is present; what was added is expected, was recorded nowhere before, and is skipped; nothing is added when none was missing |
| `ProfileRun.VerifyRender` | xtask/src/profiles.rs:690-765 | records the three render checks with the outcome the world calls for |
| `ProfileRun.VerifyCatalog` | xtask/src/profiles.rs:767-830 | records metadata, doctor and diff with the outcome the world calls for |
| `ProfileRun.InspectModules` | xtask/src/profiles.rs:879-909 | collects registrars, application-required modules and their contributions in profile order |
| `ProfileRun.VerifyComposition` | xtask/src/profiles.rs:839-925 | records the composition checks and leaves exactly that evidence |
| `ProfileRun.VerifyWeb` | xtask/src/profiles.rs:1290-1353 | records the web checks in the order they run, skipping the rest after a failed workspace or install |
| `ProfileRun.VerifyBuild` | xtask/src/profiles.rs:928-1129 | records the build and process checks and leaves the evidence of a started or assembled process only when it was one |
| `ProfileRun.VerifyStarted` | xtask/src/profiles.rs:1063-1128 | a started process leaves its workflow, readiness and shutdown evidence and is assembled exactly when registration and parity pass |
| `ProfileRun.VerifyBrowser` | xtask/src/profiles.rs:482-501 | records the browser smoke test as run, blocked or not applicable |
| `ProfileRun.DeriveExact` | xtask/src/profiles.rs:646-688 | the classification drawn from evidence and ledger is the one the world's answers call for |
| `ProfileRun.NothingMissing` | xtask/src/profiles.rs:510-518 | no run leaves an expected name unrecorded, so the final fill adds nothing |
| `ProfileRun.VerifyProfile` | xtask/src/profiles.rs:448-587 | the whole run returns the ledger, the verdict and the classification that the lemmas of `Ledger` speak about; the returned entries show the classification (`LedgerExact.Classified`) and are lawful, the smoke test included |
| `TaskGraph.TopologicalNotCyclic` | xtask/src/specs.rs:912-940 | a graph with a topological order of all its tasks has no cycle |
| `TaskGraph.StackCloses` | xtask/src/specs.rs:912-940 | a task met again below itself lies on a cycle |
| `TaskSearch.Search.Visit` | xtask/src/specs.rs:913-932 | a completed visit keeps the completed tasks topologically ordered; a failed one names a task on a cycle or an unknown one |
| `TaskSearch.ValidateTaskDag` | xtask/src/specs.rs:912-940 | succeeds exactly when every dependency is a known task and there is no cycle, in any traversal order |
| `TaskSearch.Collector.Visit` | specs/tools/validate_web_feature_suite.py:263-273 | every reported task lies on a cycle, and while none is reported the finished tasks are topologically ordered |
| `TaskSearch.CollectCycles` | specs/tools/validate_web_feature_suite.py:260-276 | reports at least one error exactly when there is a cycle, in any traversal order |
| `GreedyOrder.GreedySound` | xtask/src/extensions.rs:320-351 | the greedy order is a permutation in which every need is met by what comes before |
| `GreedyOrder.GreedyComplete` | xtask/src/extensions.rs:320-351 | it exists whenever any such order does |
| `GreedyOrder.GreedyLeast` | xtask/src/extensions.rs:320-351 | it is lexicographically least among all such orders |
| `ExtensionPlans.Collect` | xtask/src/extensions.rs:289-310 | builds the ascending map of plans, or names a repeated id exactly when there is one |
| `ExtensionPlans.CheckVersions` | xtask/src/extensions.rs:321-333 | finds a required version that differs from an available one exactly when there is one |
| `ExtensionPlans.MismatchBlocks` | xtask/src/extensions.rs:321-333 | an available version that differs from a required one rules out every order |
| `ExtensionPlans.Order` | xtask/src/extensions.rs:311-352 | the loop yields the greedy order exactly when the plans are loadable, with every requirement met at its version; otherwise it names a version clash or the plans that wait for each other |
| `ExtensionPlans.LoadPlans` | xtask/src/extensions.rs:289-352 | exactly the plans with distinct ids that are loadable are ordered: each once, after its requirements at exactly their versions, least by id, and alike however they are read; without a plan at another version under the base id, failure means no order exists; what a failure names is the reason |
| `ExtensionPlans.LoadableExactly` | xtask/src/extensions.rs:311-352 | where an order exists, the plans are loaded exactly when the base bundle is asked for at its own version and not behind a plan that takes its id at another |
| `ExtensionPlans.OvertakenBaseRefused` | xtask/src/extensions.rs:318-349 | a plan that asks for the base bundle is refused behind one that takes its id, although it could go first |
| `ExtensionPlans.OtherVersionRefused` | xtask/src/extensions.rs:318-349 | a plan that asks for the other version is refused at once, although it could go behind |
| `ExtensionPlans.RefusedInput` | xtask/src/extensions.rs:318-349 | base svc 1, plan svc 2 and plan zz asking for svc 1: an order exists and the plans are refused |
| `ExtensionPlans.LoadedOnce` | xtask/src/extensions.rs:289-352 | the loaded order does not depend on the order the plans were read in |
| `ExtensionPlans.LeastById` | xtask/src/extensions.rs:318-349 | where another order of the plans first differs, the loaded one has the smaller id |
| `RuntimeModules.CheckRequirements` | xtask/src/specs.rs:132-140 | reports a requirement that is not a runtime module exactly when there is one |
| `RuntimeModules.OrderRuntime` | xtask/src/specs.rs:142-160 | the loop yields the greedy order of modules with distinct ids, and nothing when ids repeat |
| `RuntimeModules.RuntimeExactly` | xtask/src/specs.rs:122-131 | the runtime modules are exactly those of the catalog that are no tooling |
| `RuntimeModules.ListRuntimeModules` | xtask/src/specs.rs:122-160 | lists exactly the modules that are no tooling, exactly when their ids are distinct and an order exists; the list is the least by catalog position |
| `Overlay.Admit` | xtask/src/extensions.rs:537-544 | admits entries exactly when every one has an id and none repeats |
| `Overlay.Document.MergeEntries` | xtask/src/extensions.rs:530-560 | appends the source sorted by id exactly when all ids are present and distinct; a rejected merge changes nothing |
| `Overlay.AdditionsCanonical` | xtask/src/extensions.rs:545-550 | one merge does not depend on the order the source lists its entries in |
| `Overlay.AdditionsByIds` | xtask/src/extensions.rs:479-560 | each rule for a key adds the entries of its source, each once, in ascending order of their ids |
| `Overlay.ChosenExactly` | xtask/src/extensions.rs:479-490 | the rules applied to a target are exactly those that name it |
| `Overlay.UsableExactly` | xtask/src/extensions.rs:491-517 | a rule can be used exactly when its unique key is `id` and both files have a list under its keys |
| `Overlay.MergeableExactly` | xtask/src/extensions.rs:537-558 | entries go together exactly when each has an id and no two have the same |
| `Overlay.CompositionCanonical` | xtask/src/extensions.rs:479-528 | neither does the whole composition, with the entries of every source listed in any order: it succeeds alike and yields the same document |
| `Overlay.ComposeTarget` | xtask/src/extensions.rs:479-528 | base entries verbatim and in order, then each source's sorted additions, all ids distinct, other keys untouched; fails exactly when a rule cannot be used, ids clash or no rule names the target; the same for every other order of the entries in the sources |
| `ProfileChains.EndsExactly` | specs/tools/validate_web_feature_suite.py:202-222 | with every parent known, a chain ends exactly when it does not run in a circle |
| `ProfileResolvers.ResolveExact` | specs/tools/validate_bundle.py:124-137 | the plain recursion reports an error exactly when the chain does not end at known profiles, and otherwise yields the inherited list |
| `ProfileResolvers.ParentFirst` | specs/tools/validate_bundle.py:124-137 | a parent's list is a prefix of its child's |
| `ProfileResolvers.ResolvedDistinct` | specs/tools/validate_bundle.py:137-137 | no module is listed twice |
| `ProfileResolvers.UniqueInOrder` | specs/tools/validate_bundle.py:137-137 | the list keeps the order in which modules first come |
| `ProfileResolvers.Resolver.Resolve` | specs/tools/validate_web_feature_suite.py:202-222 | the cache never changes an answer: a profile whose chain ends gets its list without a new error, and no error means the chain ends |
| `ProfileResolvers.ResolveAll` | specs/tools/validate_web_feature_suite.py:200-225 | for any order of calls the cached lists equal the plain ones, and errors appear exactly when some chain does not end |
| `ProfileResolvers.Visiting.ResolveModules` | xtask/src/docs.rs:1740-1760 | succeeds exactly when the chain ends, with the union over the chain, and restores the visiting set |
| `ProfileResolvers.SetsAgree` | xtask/src/docs.rs:1740-1760 | on a chain that ends without an empty `extends` both resolve, and the union over the chain holds exactly the modules of the list |
| `ProfileResolvers.SetsGoOn` | xtask/src/docs.rs:1740-1760 | past an empty `extends` the set resolver goes on with the profile of that name, and adds what it gathers there to the modules of the list |
| `ProfileResolvers.SetsAgreeExactly` | xtask/src/docs.rs:1740-1760 | for all profiles: the set resolver succeeds exactly when the list does and the chain has no empty `extends` or the profile named by the empty string resolves; they agree exactly when that one adds nothing |
| `ProfileResolvers.SetsAgreeNamed` | xtask/src/docs.rs:1740-1760 | without a profile named by the empty string the set resolver succeeds, and agrees, exactly on chains that end without an empty `extends` |
| `ProfileResolvers.EmptyExtends` | xtask/src/docs.rs:1740-1760 | a profile that extends the empty string has a list and no set |
| `Calendar.NextIsOneLater` | xtask/src/docs.rs:1872-1913 | the day number grows by exactly one from any date of any year to its successor |
| `Calendar.EpochIsZero` | xtask/src/docs.rs:1872-1913 | 1970-01-01 has number 0 |
| `Calendar.CalendarOrder` | xtask/src/docs.rs:379-387 | day numbers compare as dates do, and are equal only for equal dates |
| `Calendar.YearLength` | xtask/src/docs.rs:1902-1913 | a year from March to March has 366 days exactly around a leap day |
| `DateText.ParseFormat` | xtask/src/docs.rs:1872-1913 | every date of years 0 to 9999, written out, is read back as its day number |
| `DateText.ParsedIsWritten` | xtask/src/docs.rs:1872-1901 | apart from plus signs only written dates are accepted |
| `DateText.ParsedOrder` | xtask/src/docs.rs:379-387 | a page is found stale exactly when the cited page was verified on a later date |
| `ArrayScanner.MatchingArrayEnd` | xtask/src/spec_archive.rs:477-505 | the byte loop returns the bracket that closes the array, and nothing exactly when none does |
| `ArrayScanner.BalancedPiece` | xtask/src/spec_archive.rs:477-505 | plain characters, strings of section 7 of RFC 8259 and nested arrays leave the scanner where it was |
| `ArrayScanner.ClosesArray` | xtask/src/spec_archive.rs:477-505 | in any surroundings the scan from the opening bracket of an array stops at its last bracket |
| `ArrayScanner.ArrayPieceIsArray` | xtask/src/spec_archive.rs:477-505 | every array of nested text, in whatever layout, is one array to the scanner |
| `ManifestText.ReplaceJsonArray` | xtask/src/spec_archive.rs:462-475 | replaces exactly the array under the first occurrence of the key and nothing else |
| `ManifestText.ReplaceReplace` | xtask/src/spec_archive.rs:462-475 | a second replacement wins over the first |
| `ManifestText.ReplaceUndone` | xtask/src/spec_archive.rs:462-475 | putting the old array back restores the text |
| `ManifestText.RenderRecords` | xtask/src/spec_archive.rs:416-432 | the printing loops yield the array text that `ManifestReadBack.ArrayBack` reads |
| `ManifestText.RenderArtifactRecords` | xtask/src/spec_archive.rs:416-432 | prints path, size and digest of every artifact under those names |
| `ManifestText.RenderDocumentRecords` | xtask/src/spec_archive.rs:434-460 | prints the metadata and the artifact of every document under their names |
| `ManifestLayout.ReplaceText` | xtask/src/spec_archive.rs:462-475 | the array behind the quoted key, a colon and a space is replaced, spelled out |
| `ManifestLayout.CountText` | xtask/src/spec_archive.rs:507-519 | the digits behind the quoted key, a colon and a space are replaced, spelled out |
| `ManifestLayout.ArtifactText` | xtask/src/spec_archive.rs:416-432 | the text of a record: path, bytes and sha256, each on its own line |
| `ManifestLayout.ArtifactsRead` | xtask/src/spec_archive.rs:416-432 | a JSON reader finds path, bytes and sha256 of every artifact, in that order |
| `ManifestLayout.DocumentsRead` | xtask/src/spec_archive.rs:434-460 | a JSON reader finds the eight fields of every document, by name and in order |
| `ManifestText.RecordsAreArray` | xtask/src/spec_archive.rs:416-432 | whatever the names, paths and digests are, the printed records are one array to the scanner |
| `ManifestText.RefreshTwice` | xtask/src/spec_archive.rs:300-345 | refreshing the records twice is refreshing them once with the later ones |
| `ManifestReadBack.StringBack` | xtask/src/spec_archive.rs:542-544 | every string, control characters and quotes included, is read back from its JSON text |
| `ManifestReadBack.ArrayBack` | xtask/src/spec_archive.rs:416-460 | a JSON reader finds in the printed array exactly the records, names and values in order, and stops behind it |
| `ManifestReadBack.RefreshedReads` | xtask/src/spec_archive.rs:300-345 | after a refresh the array under the key reads as the new records, with the text before and after it unchanged |
| `ManifestReadBack.ArtifactsDiffer` | xtask/src/spec_archive.rs:416-432 | different records are printed differently |
| `ManifestCounts.ReplaceJsonCount` | xtask/src/spec_archive.rs:507-519 | replaces exactly the digits under the first occurrence of the key, and fails exactly where the key or a digit is missing |
| `ManifestCounts.CountReads` | xtask/src/spec_archive.rs:507-519 | the new count is read back, with the text before and after it unchanged |
| `ManifestCounts.CountTwice` | xtask/src/spec_archive.rs:507-519 | a second count wins over the first |
| `ManifestMarkers.ArrayClean` | xtask/src/spec_archive.rs:416-460 | no marker of a count falls inside a printed array, whatever strings the records hold, unless a record has a field of that name |
| `ManifestSlots.CountKeepsCount` | xtask/src/spec_archive.rs:507-519 | writing one count leaves the place of every other count or moves it along |
| `ManifestSlots.CountKeepsArray` | xtask/src/spec_archive.rs:477-519 | writing a count leaves the place of the array or moves it along, text unchanged |
| `ManifestSlots.ArrayKeepsCount` | xtask/src/spec_archive.rs:462-519 | writing the array leaves the place of a count or moves it along |
| `ManifestRefresh.RefreshManifestText` | xtask/src/spec_archive.rs:300-380 | the array and then one count after another, all in one text, as the refresh function says |
| `ManifestRefresh.CountsCommute` | xtask/src/spec_archive.rs:507-519 | counts under different keys can be written in either order |
| `ManifestRefresh.ArrayCommutes` | xtask/src/spec_archive.rs:462-519 | the array and a count can be written in either order |
| `ManifestRefresh.LastRefreshWins` | xtask/src/spec_archive.rs:300-380 | a second refresh gives the text that it would have given without the first, whatever records and counts the first one wrote |
| `ManifestRefresh.RefreshIdempotent` | xtask/src/spec_archive.rs:300-380 | a second refresh with the same records and counts leaves the text as it is |
| `ManifestRefresh.RefreshReads` | xtask/src/spec_archive.rs:300-380 | after a refresh a JSON reader finds the records in the array, and every count under its key, earlier writes surviving later ones |
| `ManifestValues.CountKeysUsable` | xtask/src/spec_archive.rs:310-380 | the keys of the counts meet the conditions, for every manifest |
| `ManifestValues.ShowsRefreshed` | xtask/src/spec_archive.rs:300-345 | any text in which the places can be found shows the new records and counts after a refresh, in its old frame |
| `ManifestValues.TextFollowsValue` | xtask/src/spec_archive.rs:300-345 | refreshing the text of a manifest is what the archive does to its value, and the text changes exactly when the value does |
| `ManifestValues.ManifestStep` | xtask/src/spec_archive.rs:300-380 | what the archive computes for a manifest, four counts or ten, has one count for each key, and is the refresh of its text |
| `ManifestValues.OwnCountsUnder` | xtask/src/spec_archive.rs:347-380 | the numbers of files, Markdown documents, numbered specifications and decision records stand under their four keys |
| `ManifestValues.TotalsUnder` | xtask/src/spec_archive.rs:347-380 | the totals of modules, profiles, criteria, tasks, recommendations and sources stand under their six keys |
| `FileNames.MarkdownExactly` | xtask/src/spec_archive.rs:275-279 | a name with a directory is Markdown exactly when its extension is md in any case |
| `FileNames.AdrExactly` | xtask/src/spec_archive.rs:347-380 | a name with a directory is a decision record exactly when it is Markdown and lies below `adr` |
| `FileNames.NumberedExactly` | xtask/src/spec_archive.rs:265-279 | a name without a directory is a numbered specification exactly when it starts with two digits and a dash and is Markdown |
| `ManifestValues.DocumentTextFollowsValue` | xtask/src/spec_archive.rs:391-405 | the same for the document manifest |
| `ManifestValues.TextOnce` | xtask/src/spec_archive.rs:300-345 | one value has one text |
| `Archive.ContentDepends` | xtask/src/spec_archive.rs:102-130 | a generated file depends only on inventories, frames, ungenerated files and the bytes it digests |
| `Archive.DigestedEarlier` | xtask/src/spec_archive.rs:102-130 | where manifests list only what is written before them, everything a file digests was written before it |
| `Archive.WriteProgresses` | xtask/src/spec_archive.rs:102-130 | each write makes its file right and keeps all earlier files right |
| `Archive.RunSettles` | xtask/src/spec_archive.rs:102-130 | a whole run over such inventories leaves every generated file right at once and keeps inventories and frames |
| `ArchiveExact.InventoriedExactly` | xtask/src/spec_archive.rs:102-130 | which paths a suite may list: no generated ones, but the combined documents for all and the manifest of the one before |
| `ArchiveExact.ManifestHolds` | xtask/src/spec_archive.rs:300-345 | a refreshed manifest records path, size and digest of each listed file, in the order of the list |
| `ArchiveExact.ChecksumsAscend` | xtask/src/spec_archive.rs:521-540 | a refreshed checksum list names the inventory and the manifest, each once and with its digest, in ascending order |
| `ArchiveExact.DocumentsAscend` | xtask/src/spec_archive.rs:391-405 | a refreshed document manifest ascends by specification id |
| `ArchiveExact.DocumentsHold` | xtask/src/spec_archive.rs:391-414 | its entries are exactly the Markdown files that were walked, each with its front matter, size and digest |
| `ArchiveOrder.DocumentsOnceExactly` | xtask/src/spec_archive.rs:391-405 | the document list is the same for every order of the walk exactly when no two Markdown documents share an id |
| `ArchiveOrder.TwoDocuments` | xtask/src/spec_archive.rs:391-405 | two documents with one id are listed in the order they come |
| `ArchiveOrder.TwinOrders` | xtask/src/spec_archive.rs:391-405 | for any two documents with one id, two walks that list them differently |
| `ArchiveOrder.SecondRunExactly` | xtask/src/spec_archive.rs:102-130 | a second run, however it walks, finds nothing to write exactly when no two documents of the base share an id |
| `ArchiveLimits.RunPossible` | xtask/src/spec_archive.rs:102-130 | where the manifests can be read, every listed file is there and no source is malformed, the refresh goes through |
| `ArchiveLimits.OutOfRank` | xtask/src/spec_archive.rs:102-130 | an entry that is written with its manifest or after it leaves a false digest, for tools that tell old files from new ones |
| `ArchiveLimits.SettlesExactly` | xtask/src/spec_archive.rs:102-130 | inventories are served, for all tools, files and walks, exactly when each manifest lists only what is written before it |
| `ArchiveRun.FileSystem.WriteIfChanged` | xtask/src/spec_archive.rs:546-551 | writes exactly when the content differs |
| `ArchiveRun.FileSystem.RefreshManifest` | xtask/src/spec_archive.rs:300-345 | the manifest becomes what the files call for, or nothing changes |
| `ArchiveRun.FileSystem.WriteChecksums` | xtask/src/spec_archive.rs:521-540 | the checksum list becomes what the files call for, or nothing changes |
| `ArchiveRun.FileSystem.RefreshDocuments` | xtask/src/spec_archive.rs:391-405 | the document manifest becomes what the files call for, in the order the owned set is walked and then sorted, or nothing changes |
| `ArchiveRun.FileSystem.RenderComplete` | xtask/src/spec_archive.rs:146-236 | the combined document becomes what its sources call for, or nothing changes |
| `ArchiveRun.FileSystem.Generate` | xtask/src/spec_archive.rs:102-130 | succeeds exactly when the inventories can be read and the run is possible, and leaves its files; something is written exactly when something changes; where manifests list only what comes before them every generated file is right at once |
| `ArchiveRun.FileSystem.GenerateTwice` | xtask/src/spec_archive.rs:102-130 | a second refresh, walking in another order, succeeds and writes nothing where no two documents of the base share an id |
| `ArchiveIntegrity.SettledRecords` | xtask/src/specs.rs:1341-1352 | in a refreshed archive every recorded size and digest is that of the file |
| `ArchiveIntegrity.SettledChecksums` | xtask/src/specs.rs:1281-1312 | in a refreshed archive the checksum list names the inventory and the manifest once each, with true digests |
| `ArchiveIntegrity.RefreshedExtensions` | xtask/src/specs.rs:1228-1279 | in a refreshed archive the extension checks pass exactly when no path is taken twice |
| `ArchiveIntegrity.CountIsSize` | xtask/src/specs.rs:1100-1122 | a count over a list without repetition is the number of paths counted |
| `ArchiveIntegrity.NumberedAgreeExactly` | xtask/src/specs.rs:1108-1118 | the refresh never counts more numbered specifications than the check, and counts the same exactly when no numbered directory holds a document |
| `ArchiveIntegrity.RefreshedCounts` | xtask/src/specs.rs:1100-1137 | in a refreshed archive whose base is what is on disk, all ten counts pass exactly when no numbered directory holds a document of the base |
| `ArchiveIntegrity.RefreshedDocuments` | xtask/src/specs.rs:1172-1226 | in a refreshed archive with front matter in order, the document manifest has the right number of entries, distinct ids and true entries exactly when every Markdown file of the base has a lower-case extension and no further suite claims one |
| `ArchiveIntegrity.IntactExactly` | xtask/src/specs.rs:1066-1352 | in a refreshed archive the check of front matter, inventories, counts, documents, digests and checksum lists passes exactly when front matter is proper with distinct ids, no path is taken twice, the base lists exactly the other visible files on disk, its Markdown files are documents that no further suite claims, and none is in a numbered directory |
| `ArchiveIntegrity.RefreshVerifies` | xtask/src/specs.rs:1066-1352 | for disjoint inventories of ordinary files: whether the check passes after a refresh, read off the archive before it and the combined documents, by the same conditions |
| `ArchiveIntegrity.NumberedDirectory` | xtask/src/specs.rs:1108-1118 | for any visible document in a numbered directory, an archive in which everything else is in order, the refresh goes through and the check fails |
| `ArchiveIntegrity.DirectoryNames` | xtask/src/spec_archive.rs:265-279 | the names of such documents |
| `ManagedRegions.MarkerLine` | xtask/src/specs.rs:550-561 | finds the offsets of the one line with the needle, and nothing when it is missing or repeated |
| `ManagedRegions.ReplaceManagedRegion` | xtask/src/specs.rs:514-548 | rewrites exactly the region and its digest, or fails exactly when the markers, digest or content are not in order |
| `ManagedRegions.StampContains` | xtask/src/specs.rs:530-545 | a new digest neither makes nor breaks a marker |
| `ManagedRegions.ReplaceRegion` | xtask/src/specs.rs:514-548 | the rewritten source parses again with the content and its digest, everything else unchanged |
| `RegionText.ReplacedExactly` | xtask/src/specs.rs:514-561 | for every source, id and content: a region is rewritten exactly when the content ends its last line and each marker text stands on one line, the opening one first, with 64 hexadecimal digits behind its first digest field |
| `RegionText.ReplacedText` | xtask/src/specs.rs:538-548 | what becomes of the lines: those around the region stay, the 64 digits are exchanged for the digest of the content, and the content stands between the markers |
| `RegionText.RegionRewritten` | xtask/src/specs.rs:514-548 | a region spelled out with its two marker lines is rewritten to the same lines with the new content and its digest |
| `RegionText.RegionRefused` | xtask/src/specs.rs:526-537 | a recorded digest of 64 characters that are not all hexadecimal is refused |
| `ManagedRegions.ParsesAgainExactly` | xtask/src/specs.rs:514-548 | for every content: the rewritten source parses again exactly when the opening line with its new digest and the content together hold no closing marker and one opening marker, on a line with a digest |
| `ManagedRegions.StampContainsExactly` | xtask/src/specs.rs:514-548 | with a new digest the opening line holds what it held beside the digest, and what reaches into the new one |
| `ManagedRegions.ParsesAgainPlain` | xtask/src/specs.rs:514-548 | for content without markers: exactly when the opening marker stood beside the old digest or reaches into the new one, and no closing marker reaches into it |
| `ManagedRegions.LostMarker` | xtask/src/specs.rs:514-548 | an id that goes on into the digest loses its marker as soon as the digest begins differently |
| `ManagedRegions.ReplaceTwice` | xtask/src/specs.rs:514-548 | a second rewrite wins over the first |
| `ManagedRegions.ReplaceOther` | xtask/src/specs.rs:514-548 | a disjoint region keeps its text and recorded digest |
| `SbomLaws.CoordinateReadBack` | scripts/release/release_bundle.py:299-318 | every dependency coordinate a lock file can write is read back |
| `SbomLaws.SameSortedRefs` | scripts/release/release_bundle.py:227-229 | with injective references two package lists sort to the same references exactly when they hold the same packages |
| `SbomLaws.WrittenComponents` | scripts/release/release_bundle.py:348-386 | the written components pass every component check |
| `SbomLaws.WrittenEdges` | scripts/release/release_bundle.py:388-407 | the written edges are accepted exactly when dependencies are distinct and members are the packages without a source |
| `SbomLaws.WrittenAccepted` | scripts/release/release_bundle.py:898-1024 | the checker accepts what the writer writes exactly under that condition |
| `SbomLaws.OutsiderRefused` | scripts/release/release_bundle.py:898-1024 | a package without a source that is no workspace member makes the checker refuse what the writer writes |
| `SbomLaws.PathRefused` | scripts/release/release_bundle.py:898-1024 | a lock file of one member and a path dependency outside the workspace: a bill is written, and refused |
| `SbomLaws.AcceptedMatches` | scripts/release/release_bundle.py:898-1024 | whatever is accepted has the lock file's component order, identities and edge map |
| `SbomExact.ResolveExactly` | scripts/release/release_bundle.py:299-318 | a dependency written by a lock file resolves to a package exactly when that is the only one with its name and, where written, its version and source |
| `SbomExact.VersionDecides` | scripts/release/release_bundle.py:299-318 | between two versions of a package the one written is taken, and without a version there is no answer |
| `SbomExact.ParsedIsWritten` | scripts/release/release_bundle.py:299-318 | whatever is read of a dependency is what is written there |
| `SbomExact.ResolvesExactly` | scripts/release/release_bundle.py:299-318 | the dependencies of a package resolve exactly when each means one package |
| `SbomExact.AcceptedPoints` | scripts/release/release_bundle.py:898-1024 | in an accepted bill the edges of every package go to exactly the packages that its dependencies mean |
| `SbomExact.AcceptedRoot` | scripts/release/release_bundle.py:898-1024 | in an accepted bill the edges of the root go to exactly the packages without a source |
| `SbomExact.AcceptedComponentsAre` | scripts/release/release_bundle.py:950-996 | each component of an accepted bill has reference, name, version, URL and kind of its package, its checksum where there is one, the kind of its source once and the membership flag once |
| `SbomExact.AcceptedAscend` | scripts/release/release_bundle.py:997-1024 | the targets of an accepted edge ascend, none twice |
| `SbomExact.BuiltPoints` | scripts/release/release_bundle.py:388-407 | in a written bill the edges of every package go to exactly the packages that its dependencies mean |
| `SbomExact.BuiltRoot` | scripts/release/release_bundle.py:388-407 | in a written bill the edges of the root go to exactly the packages with the id of a workspace member |
| `SbomExact.BuiltComponents` | scripts/release/release_bundle.py:348-386 | the components are the packages of the lock file, each once, with name, version, URL, checksum, kind of source and whether it is a workspace member |
| `SbomExact.KeysAscend` | scripts/release/release_bundle.py:348-386 | they ascend by name, then version, then source |
| `SbomRun.ResolveAll` | scripts/release/release_bundle.py:299-318 | resolves every dependency of a package, or fails exactly when one does not mean exactly one package (`SbomExact.Settled`) |
| `SbomRun.BuildSbom` | scripts/release/release_bundle.py:321-436 | the loops write the bill of materials of `Sbom.Built`, or fail exactly when metadata, checksums, dependencies or members do not fit the lock file; what is written has every edge go to what its dependency means |
| `SbomRun.CheckComponents` | scripts/release/release_bundle.py:950-996 | accepts components exactly when each is known, identified and listed once in lock file order |
| `SbomRun.VerifySbom` | scripts/release/release_bundle.py:898-1024 | accepts exactly the bills of materials of `Sbom.Accepts`; with injective references an accepted one has every edge go to what its dependency means |

## Left out

- OpenAPI comparison: its rules live in a crate that is not part of this model; what it finds is an argument.
- Loading, validation and path safety of contract directories; report output.
- Values of `pattern`, `format` and `multipleOf`, and 64-bit rounding of bounds: opaque or exact here.
- DocumentSoundness.DocumentSound: a reference through `items`, `additionalProperties` or a composition inside a component keeps one meaning in both documents; those parts may be dropped or reordered without a break, which leaves no target to compare with. References to components and to properties inside them are resolved.
- `contains_der_private_key` and the key containers: a few tests on top of the element reader and a call of an external tool.
- Text, command lines, criteria and artifacts of ledger entries; parallel workers of the profile matrix.
- The registered route, task and operation ids and the migration range in the profile evidence: recorded, never read by the classification.
- CSV overlays and extension markers: flat checks.
- The fixed fields of a bill of materials (format, serial number, tool identity), license and URL fields, JSON shape tests: flat checks.
- Depth of nesting beyond 32 bits in the array scanner: depth is a natural number.
- The other parts of the specification check: catalogs, cross references, examples, prohibited markers. The patterns of front matter fields are any predicate; the totals of the base manifest (modules, profiles, criteria, tasks, recommendations, sources) are any function of files that the refresh does not write, the same for refresh and check; so are the paths that feature suite manifests beside the two claim.
- ArchiveRun.FileSystem.RenderComplete: how a combined document follows from its sources is any function of files that the refresh does not write; only that it depends on nothing else is used.
- ArchiveRun.FileSystem.RefreshManifest: stated on values; that the text follows is `ManifestValues.TextFollowsValue`, for texts in the printed layout. A text laid out otherwise is brought into it by the first refresh (`ManifestValues.ShowsRefreshed`), which the value does not count as a change.
