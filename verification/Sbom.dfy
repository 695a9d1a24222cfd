/**
 The bill of materials of a release: what is written from a lock file, and
 what is accepted for one.
 */
module Sbom {
  import opened Json
  import opened Sorting
  import opened Text
  import Keyed

  datatype Key = Key(name: string, version: string, source: string)

  datatype Package = Package(checksum: Option<string>, dependencies: seq<string>)

  // The packages of a lock file, and the order they are listed in.
  datatype Lock = Lock(order: seq<Key>, packages: map<Key, Package>)

  ghost predicate ValidLock(lock: Lock) {
    Unique(lock.order) && forall k :: k in lock.order <==> k in lock.packages
  }

  ghost predicate Unique<T>(s: seq<T>) {
    forall i, j :: 0 <= i < j < |s| ==> s[i] != s[j]
  }

  // References, package URLs and the kind of a source; what a checksum may look like.
  datatype Naming = Naming(
    ref: Key -> string,
    purl: (string, string) -> string,
    kind: string -> string,
    isChecksum: string -> bool)

  datatype PropertyName = SourceKind | WorkspaceMember | OtherProperty(text: string)

  datatype Property = Property(name: PropertyName, value: string)

  datatype Kind = Library | OtherKind(text: string)

  datatype Component = Component(
    ref: string,
    name: string,
    version: string,
    purl: string,
    kind: Kind,
    properties: seq<Property>,
    hashes: Option<seq<string>>,
    extra: Json)

  datatype Dependency = Dependency(ref: string, dependsOn: seq<string>)

  // The fields outside the two lists: time, the root component's reference, name and version.
  datatype Header = Header(timestamp: string, rootRef: string, name: string, version: string)

  datatype Bom = Bom(header: Header, components: seq<Component>, dependencies: seq<Dependency>)

  // ----- Resolving a dependency -----

  datatype Coordinate = Coordinate(name: string, version: Option<string>, source: Option<string>)

  // The last place where " (" starts, if any.
  function LastParen(s: string, i: nat): (r: Option<nat>)
    requires i <= |s|
    ensures r.Some? ==> r.value + 1 < |s| && s[r.value] == ' ' && s[r.value + 1] == '('
  {
    if i == 0 then None
    else if i < |s| && s[i - 1] == ' ' && s[i] == '(' then Some(i - 1)
    else LastParen(s, i - 1)
  }

  function ParseCoordinate(value: string): Option<Coordinate> {
    var at := LastParen(value, |value|);
    var sourced := value != "" && value[|value| - 1] == ')' && at.Some?;
    var parts := SplitOn(if sourced then value[..at.value] else value, ' ');
    var source := if sourced then Some(value[at.value + 2..|value| - 1]) else None;
    if |parts| == 1 && parts[0] != "" then Some(Coordinate(parts[0], None, source))
    else if |parts| == 2 && parts[0] != "" then Some(Coordinate(parts[0], Some(parts[1]), source))
    else None
  }

  predicate Fits(c: Coordinate, k: Key) {
    && k.name == c.name
    && (c.version.Some? ==> k.version == c.version.value)
    && (c.source.Some? ==> k.source == c.source.value)
  }

  function Candidates(c: Coordinate, order: seq<Key>): seq<Key> {
    if order == [] then []
    else (if Fits(c, order[0]) then [order[0]] else []) + Candidates(c, order[1..])
  }

  // The one package a dependency can mean.
  function Resolve(value: string, order: seq<Key>): Option<Key> {
    var c := ParseCoordinate(value);
    if c.None? then None
    else
      var candidates := Candidates(c.value, order);
      if |candidates| == 1 then Some(candidates[0]) else None
  }

  predicate Resolves(lock: Lock, key: Key)
    requires key in lock.packages
  {
    forall i :: 0 <= i < |lock.packages[key].dependencies| ==>
      Resolve(lock.packages[key].dependencies[i], lock.order).Some?
  }

  function Resolved(lock: Lock, key: Key): seq<Key>
    requires key in lock.packages && Resolves(lock, key)
  {
    var ds := lock.packages[key].dependencies;
    seq(|ds|, i requires 0 <= i < |ds| => Resolve(ds[i], lock.order).value)
  }

  // ----- Orders -----

  predicate KeyLe(a: Key, b: Key) {
    if a.name != b.name then StrLess(a.name, b.name)
    else if a.version != b.version then StrLess(a.version, b.version)
    else StrLe(a.source, b.source)
  }

  function RefsOf(n: Naming, keys: seq<Key>): seq<string> {
    seq(|keys|, i requires 0 <= i < |keys| => n.ref(keys[i]))
  }

  function SortedRefs(n: Naming, keys: seq<Key>): seq<string> {
    Sort(RefsOf(n, keys), StrLe)
  }

  function SortedKeys(lock: Lock): seq<Key> {
    Sort(lock.order, KeyLe)
  }

  function Sourceless(order: seq<Key>): seq<Key> {
    if order == [] then []
    else (if order[0].source == "" then [order[0]] else []) + Sourceless(order[1..])
  }

  predicate ByRef(a: Dependency, b: Dependency) {
    StrLe(a.ref, b.ref)
  }

  // References tell packages apart, and from the root.
  ghost predicate Injective(n: Naming, lock: Lock, root: string) {
    && (forall a, b :: a in lock.order && b in lock.order && n.ref(a) == n.ref(b) ==> a == b)
    && (forall k :: k in lock.order ==> n.ref(k) != root)
  }

  // ----- Writing -----

  function ComponentFor(n: Naming, key: Key, p: Package, member: bool, extra: Json): Component {
    Component(n.ref(key), key.name, key.version, n.purl(key.name, key.version), Library,
              [Property(SourceKind, n.kind(key.source)),
               Property(WorkspaceMember, if member then "true" else "false")],
              if p.checksum.Some? then Some([p.checksum.value]) else None, extra)
  }

  // What cargo says of the packages, and which of them are workspace members.
  datatype MetaPackage = MetaPackage(id: string, key: Key, extra: Json)

  datatype Metadata = Metadata(packages: seq<MetaPackage>, members: seq<string>)

  // Later packages replace earlier ones of the same key or id.
  function ByKey(packages: seq<MetaPackage>): map<Key, MetaPackage> {
    if packages == [] then map[]
    else
      var last := packages[|packages| - 1];
      ByKey(packages[..|packages| - 1])[last.key := last]
  }

  function ById(packages: seq<MetaPackage>): map<string, Key> {
    if packages == [] then map[]
    else
      var last := packages[|packages| - 1];
      ById(packages[..|packages| - 1])[last.id := last.key]
  }

  predicate Buildable(n: Naming, m: Metadata, lock: Lock) {
    && ByKey(m.packages).Keys == lock.packages.Keys
    && (forall key :: key in lock.packages ==>
          Resolves(lock, key)
          && (lock.packages[key].checksum.Some? ==> n.isChecksum(lock.packages[key].checksum.value)))
    && (forall i :: 0 <= i < |m.members| ==> m.members[i] in ById(m.packages))
  }

  function MemberKeys(m: Metadata): seq<Key>
    requires forall i :: 0 <= i < |m.members| ==> m.members[i] in ById(m.packages)
  {
    seq(|m.members|, i requires 0 <= i < |m.members| => ById(m.packages)[m.members[i]])
  }

  function Components(n: Naming, m: Metadata, lock: Lock, keys: seq<Key>): seq<Component>
    requires ByKey(m.packages).Keys == lock.packages.Keys && forall k :: k in keys ==> k in lock.packages
  {
    seq(|keys|, i requires 0 <= i < |keys| =>
      var package := ByKey(m.packages)[keys[i]];
      ComponentFor(n, keys[i], lock.packages[keys[i]], package.id in m.members, package.extra))
  }

  function Edges(n: Naming, lock: Lock, keys: seq<Key>): seq<Dependency>
    requires forall k :: k in keys ==> k in lock.packages && Resolves(lock, k)
  {
    seq(|keys|, i requires 0 <= i < |keys| =>
      Dependency(n.ref(keys[i]), SortedRefs(n, Resolved(lock, keys[i]))))
  }

  const PRODUCT := "omnius"

  function Root(n: Naming, version: string): string {
    n.purl(PRODUCT, version)
  }

  ghost function Built(n: Naming, m: Metadata, lock: Lock, version: string, timestamp: string): Option<Bom>
    requires ValidLock(lock)
  {
    if !Buildable(n, m, lock) then None
    else
      var keys := SortedKeys(lock);
      SortMembers(lock.order, KeyLe);
      var edges := Edges(n, lock, keys) + [Dependency(Root(n, version), SortedRefs(n, MemberKeys(m)))];
      Some(Bom(Header(timestamp, Root(n, version), PRODUCT, version), Components(n, m, lock, keys),
               Sort(edges, ByRef)))
  }

  // ----- Accepting -----

  datatype Manifest = Manifest(createdAt: string, name: string, version: string)

  // Later keys replace earlier ones of the same reference.
  function KeyByRef(n: Naming, order: seq<Key>): map<string, Key> {
    if order == [] then map[]
    else
      var last := order[|order| - 1];
      KeyByRef(n, order[..|order| - 1])[n.ref(last) := last]
  }

  function Named(properties: seq<Property>, name: PropertyName): seq<Property> {
    if properties == [] then []
    else (if properties[0].name == name then [properties[0]] else []) + Named(properties[1..], name)
  }

  predicate Identified(n: Naming, key: Key, p: Package, c: Component) {
    && c.name == key.name && c.version == key.version && c.purl == n.purl(key.name, key.version)
    && c.kind == Library
    && (p.checksum.Some? ==> c.hashes == Some([p.checksum.value]))
    && Named(c.properties, SourceKind) == [Property(SourceKind, n.kind(key.source))]
    && (Named(c.properties, WorkspaceMember) == [Property(WorkspaceMember, "true")]
        || Named(c.properties, WorkspaceMember) == [Property(WorkspaceMember, "false")])
  }

  predicate Known(n: Naming, lock: Lock, c: Component) {
    && c.ref in KeyByRef(n, lock.order)
    && KeyByRef(n, lock.order)[c.ref] in lock.packages
    && Identified(n, KeyByRef(n, lock.order)[c.ref], lock.packages[KeyByRef(n, lock.order)[c.ref]], c)
  }

  function ComponentRefs(components: seq<Component>): seq<string> {
    seq(|components|, i requires 0 <= i < |components| => components[i].ref)
  }

  // The edges the lock file calls for.
  function EdgeMap(n: Naming, lock: Lock, keys: seq<Key>): map<string, seq<string>>
    requires forall k :: k in keys ==> k in lock.packages && Resolves(lock, k)
  {
    if keys == [] then map[]
    else
      var last := keys[|keys| - 1];
      assert last in keys;
      EdgeMap(n, lock, keys[..|keys| - 1])[n.ref(last) := SortedRefs(n, Resolved(lock, last))]
  }

  function ActualEdges(dependencies: seq<Dependency>): map<string, seq<string>> {
    if dependencies == [] then map[]
    else
      var last := dependencies[|dependencies| - 1];
      ActualEdges(dependencies[..|dependencies| - 1])[last.ref := last.dependsOn]
  }

  function SortedSet(s: seq<string>): seq<string> {
    Dedup(Sort(s, StrLe))
  }

  function RefOf(d: Dependency): string {
    d.ref
  }

  ghost predicate UniqueRefs(dependencies: seq<Dependency>) {
    Keyed.DistinctBy(RefOf, dependencies)
  }

  ghost predicate Canonical(dependencies: seq<Dependency>) {
    forall d :: d in dependencies ==> d.dependsOn == SortedSet(d.dependsOn)
  }

  ghost predicate HeaderHolds(n: Naming, manifest: Manifest, header: Header) {
    header == Header(manifest.createdAt, Root(n, manifest.version), manifest.name, manifest.version)
  }

  ghost predicate ComponentsHold(n: Naming, lock: Lock, components: seq<Component>) {
    && (forall c :: c in components ==> Known(n, lock, c))
    && Unique(ComponentRefs(components))
    && ComponentRefs(components) == RefsOf(n, SortedKeys(lock))
  }

  ghost predicate AllResolve(lock: Lock) {
    forall k :: k in lock.order ==> k in lock.packages && Resolves(lock, k)
  }

  ghost predicate EdgesHold(n: Naming, lock: Lock, root: string, dependencies: seq<Dependency>) {
    && AllResolve(lock)
    && |dependencies| == |lock.order| + 1
    && UniqueRefs(dependencies) && Canonical(dependencies)
    && ActualEdges(dependencies)
       == EdgeMap(n, lock, lock.order)[root := SortedRefs(n, Sourceless(lock.order))]
  }

  ghost predicate Accepts(n: Naming, lock: Lock, manifest: Manifest, bom: Bom) {
    && HeaderHolds(n, manifest, bom.header)
    && |bom.components| == |lock.order|
    && ComponentsHold(n, lock, bom.components)
    && EdgesHold(n, lock, Root(n, manifest.version), bom.dependencies)
  }
}
