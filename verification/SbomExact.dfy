/**
 What the edges of a bill of materials point at: each dependency of the lock file is the one
 package with the name, version and source that it writes.
 */
module SbomExact {
  import opened Json
  import opened Sorting
  import opened Text
  import opened Sbom
  import opened SbomLaws

  // The package has the name, and the version and the source where they are given.
  predicate Meant(c: Coordinate, k: Key) {
    && k.name == c.name
    && (c.version == None || c.version == Some(k.version))
    && (c.source == None || c.source == Some(k.source))
  }

  // The only package that is meant.
  ghost predicate OnlyMeant(c: Coordinate, order: seq<Key>, k: Key) {
    k in order && Meant(c, k) && forall j :: j in order && Meant(c, j) ==> j == k
  }

  lemma {:induction false} CandidatesUnique(c: Coordinate, order: seq<Key>)
    requires Unique(order)
    ensures Unique(Candidates(c, order))
    ensures forall k :: k in Candidates(c, order) <==> k in order && Meant(c, k)
  {
    if order != [] {
      var rest := order[1..];
      assert forall i, j :: 0 <= i < j < |rest| ==> rest[i] == order[i + 1] && rest[j] == order[j + 1];
      CandidatesUnique(c, rest);
      assert order == [order[0]] + rest;
      assert order[0] !in rest;
    }
  }

  // A dependency resolves to a package exactly when that is the only one meant.
  lemma ResolveParsed(value: string, order: seq<Key>, c: Coordinate)
    requires Unique(order) && ParseCoordinate(value) == Some(c)
    ensures forall k :: Resolve(value, order) == Some(k) <==> OnlyMeant(c, order, k)
    ensures Resolve(value, order) == None <==> forall k :: !OnlyMeant(c, order, k)
  {
    var candidates := Candidates(c, order);
    CandidatesUnique(c, order);
    if |candidates| == 1 {
      assert candidates[0] in candidates;
      assert OnlyMeant(c, order, candidates[0]);
    } else {
      forall k ensures !OnlyMeant(c, order, k) {
        if |candidates| > 1 { assert candidates[0] in candidates && candidates[1] in candidates; }
      }
    }
  }

  // The same for what a lock file writes.
  lemma ResolveExactly(c: Coordinate, order: seq<Key>)
    requires Plain(c) && Unique(order)
    ensures forall k :: Resolve(CoordinateText(c), order) == Some(k) <==> OnlyMeant(c, order, k)
    ensures Resolve(CoordinateText(c), order) == None <==> forall k :: !OnlyMeant(c, order, k)
  {
    CoordinateReadBack(c);
    ResolveParsed(CoordinateText(c), order, c);
  }

  lemma WordsJoined(base: string)
    ensures var parts := SplitOn(base, ' ');
            && (|parts| == 1 ==> parts[0] == base)
            && (|parts| == 2 ==> parts[0] + ([' '] + parts[1]) == base)
  {
    var parts := SplitOn(base, ' ');
    SplitJoin(base, ' ');
    if |parts| == 2 {
      JoinedFirst(parts, [' ']);
      assert parts[1..] == [parts[1]];
    }
  }

  lemma Bracketed(value: string, at: nat)
    requires at + 2 < |value| && value[at] == ' ' && value[at + 1] == '(' && value[|value| - 1] == ')'
    ensures value[..at] + ([' ', '('] + value[at + 2..|value| - 1] + [')']) == value
  {
  }

  // Whatever is read of a dependency, is written there.
  lemma ParsedIsWritten(value: string)
    requires ParseCoordinate(value).Some?
    ensures CoordinateText(ParseCoordinate(value).value) == value && ParseCoordinate(value).value.name != ""
  {
    var at := LastParen(value, |value|);
    if value != "" && value[|value| - 1] == ')' && at.Some? {
      WordsJoined(value[..at.value]);
      Bracketed(value, at.value);
    } else {
      WordsJoined(value);
    }
  }

  // ----- The edges of an accepted bill -----

  // The targets of a package are exactly the packages its dependencies mean.
  ghost predicate PointsAt(n: Naming, lock: Lock, k: Key, refs: seq<string>)
    requires k in lock.packages
  {
    var ds := lock.packages[k].dependencies;
    && |refs| == |ds|
    && (forall i :: 0 <= i < |ds| ==> exists c, j :: ParseCoordinate(ds[i]) == Some(c) && OnlyMeant(c, lock.order, j) && n.ref(j) in refs)
    && (forall r :: r in refs ==> exists i, c, j :: 0 <= i < |ds| && ParseCoordinate(ds[i]) == Some(c)
                                                    && OnlyMeant(c, lock.order, j) && r == n.ref(j))
  }

  lemma ResolvedPoints(n: Naming, lock: Lock, k: Key)
    requires ValidLock(lock) && k in lock.packages && Resolves(lock, k)
    ensures PointsAt(n, lock, k, SortedRefs(n, Resolved(lock, k)))
  {
    var ds, keys := lock.packages[k].dependencies, Resolved(lock, k);
    var refs := RefsOf(n, keys);
    SortMembers(refs, StrLe);
    SortMultiset(refs, StrLe);
    assert |multiset(Sort(refs, StrLe))| == |Sort(refs, StrLe)| && |multiset(refs)| == |refs|;
    forall i | 0 <= i < |ds|
      ensures exists c :: ParseCoordinate(ds[i]) == Some(c) && OnlyMeant(c, lock.order, keys[i]) && n.ref(keys[i]) in refs
    {
      var c := ParseCoordinate(ds[i]).value;
      ResolveParsed(ds[i], lock.order, c);
      assert refs[i] in refs;
    }
    forall r | r in refs ensures exists i, c, j :: 0 <= i < |ds| && ParseCoordinate(ds[i]) == Some(c)
                                                   && OnlyMeant(c, lock.order, j) && r == n.ref(j)
    {
      var i :| 0 <= i < |refs| && refs[i] == r;
      var c :| ParseCoordinate(ds[i]) == Some(c) && OnlyMeant(c, lock.order, keys[i]);
    }
  }

  ghost predicate MeansOne(value: string, order: seq<Key>) {
    exists c, k :: ParseCoordinate(value) == Some(c) && OnlyMeant(c, order, k)
  }

  // Every dependency of the package means exactly one package.
  ghost predicate Settled(lock: Lock, k: Key)
    requires k in lock.packages
  {
    var ds := lock.packages[k].dependencies;
    forall i :: 0 <= i < |ds| ==> MeansOne(ds[i], lock.order)
  }

  lemma ResolvesExactly(lock: Lock, k: Key)
    requires Unique(lock.order) && k in lock.packages
    ensures Resolves(lock, k) <==> Settled(lock, k)
  {
    var ds := lock.packages[k].dependencies;
    forall i | 0 <= i < |ds| ensures Resolve(ds[i], lock.order).Some? <==> MeansOne(ds[i], lock.order) {
      var c := ParseCoordinate(ds[i]);
      if c.Some? { ResolveParsed(ds[i], lock.order, c.value); }
    }
  }

  // Every package has an edge in an accepted bill, to the packages that its lock entry writes.
  lemma AcceptedPoints(n: Naming, lock: Lock, manifest: Manifest, bom: Bom, k: Key)
    requires ValidLock(lock) && Injective(n, lock, Root(n, manifest.version)) && Accepts(n, lock, manifest, bom)
    requires k in lock.order
    ensures k in lock.packages && exists refs :: Dependency(n.ref(k), refs) in bom.dependencies && PointsAt(n, lock, k, refs)
  {
    AcceptedMatches(n, lock, manifest, bom);
    ResolvedPoints(n, lock, k);
  }

  // The targets of the root are exactly the packages without a source.
  ghost predicate PointsAtOwn(n: Naming, lock: Lock, refs: seq<string>) {
    && (forall k :: k in lock.order && k.source == "" ==> n.ref(k) in refs)
    && (forall r :: r in refs ==> exists k :: k in lock.order && k.source == "" && r == n.ref(k))
  }

  lemma RefsPoint(n: Naming, keys: seq<Key>)
    ensures forall k :: k in keys ==> n.ref(k) in SortedRefs(n, keys)
    ensures forall r :: r in SortedRefs(n, keys) ==> exists k :: k in keys && r == n.ref(k)
  {
    var refs := RefsOf(n, keys);
    SortMembers(refs, StrLe);
    forall k | k in keys ensures n.ref(k) in refs {
      var i :| 0 <= i < |keys| && keys[i] == k;
      assert refs[i] in refs;
    }
    forall r | r in refs ensures exists k :: k in keys && r == n.ref(k) {
      var i :| 0 <= i < |refs| && refs[i] == r;
      assert keys[i] in keys;
    }
  }

  lemma RootEdge(n: Naming, lock: Lock, root: string, dependencies: seq<Dependency>)
    requires ValidLock(lock) && EdgesHold(n, lock, root, dependencies)
    ensures Dependency(root, SortedRefs(n, Sourceless(lock.order))) in dependencies
  {
    ActualIs(dependencies);
    var actual := ActualEdges(dependencies);
    assert root in actual && actual[root] == SortedRefs(n, Sourceless(lock.order));
    var d :| d in dependencies && d.ref == root;
    assert d == Dependency(root, actual[root]);
  }

  lemma AcceptedRoot(n: Naming, lock: Lock, manifest: Manifest, bom: Bom)
    requires ValidLock(lock) && Accepts(n, lock, manifest, bom)
    ensures exists refs :: Dependency(Root(n, manifest.version), refs) in bom.dependencies && PointsAtOwn(n, lock, refs)
  {
    RootEdge(n, lock, Root(n, manifest.version), bom.dependencies);
    SourcelessIs(lock.order);
    RefsPoint(n, Sourceless(lock.order));
  }

  // A property of that name is there once, with that value.
  ghost predicate SaysOnce(properties: seq<Property>, name: PropertyName, value: string) {
    exists i :: 0 <= i < |properties| && properties[i] == Property(name, value)
                && forall j :: 0 <= j < |properties| && j != i ==> properties[j].name != name
  }

  // What an accepted component says of its package.
  ghost predicate Identifies(n: Naming, lock: Lock, k: Key, c: Component)
    requires k in lock.packages
  {
    && c.ref == n.ref(k) && c.name == k.name && c.version == k.version && c.purl == n.purl(k.name, k.version) && c.kind == Library
    && (forall sum :: lock.packages[k].checksum == Some(sum) ==> c.hashes == Some([sum]))
    && SaysOnce(c.properties, SourceKind, n.kind(k.source))
    && (SaysOnce(c.properties, WorkspaceMember, "true") || SaysOnce(c.properties, WorkspaceMember, "false"))
  }

  lemma {:induction false} NamedNone(properties: seq<Property>, name: PropertyName)
    requires Named(properties, name) == []
    ensures forall j :: 0 <= j < |properties| ==> properties[j].name != name
  {
    if properties != [] {
      NamedNone(properties[1..], name);
      forall j | 0 < j < |properties| ensures properties[j].name != name { assert properties[j] == properties[1..][j - 1]; }
    }
  }

  lemma {:induction false} NamedOnce(properties: seq<Property>, p: Property)
    requires Named(properties, p.name) == [p]
    ensures SaysOnce(properties, p.name, p.value)
  {
    var rest := properties[1..];
    if properties[0].name == p.name {
      assert Named(properties, p.name) == [properties[0]] + Named(rest, p.name);
      assert [p][0] == properties[0] && [p][1..] == Named(rest, p.name);
      NamedNone(rest, p.name);
      forall j | 0 < j < |properties| ensures properties[j].name != p.name { assert properties[j] == rest[j - 1]; }
    } else {
      NamedOnce(rest, p);
      var i :| 0 <= i < |rest| && rest[i] == p && forall j :: 0 <= j < |rest| && j != i ==> rest[j].name != p.name;
      assert properties[i + 1] == p;
      forall j | 0 < j < |properties| && j != i + 1 ensures properties[j].name != p.name { assert properties[j] == rest[j - 1]; }
    }
  }

  // The components of an accepted bill are the packages of the lock file, in their order.
  lemma AcceptedComponentsAre(n: Naming, lock: Lock, manifest: Manifest, bom: Bom, i: nat)
    requires ValidLock(lock) && Injective(n, lock, Root(n, manifest.version)) && Accepts(n, lock, manifest, bom)
    requires i < |bom.components|
    ensures |bom.components| == |SortedKeys(lock)| && SortedKeys(lock)[i] in lock.packages
    ensures Identifies(n, lock, SortedKeys(lock)[i], bom.components[i])
  {
    AcceptedMatches(n, lock, manifest, bom);
    var k, c := SortedKeys(lock)[i], bom.components[i];
    NamedOnce(c.properties, Property(SourceKind, n.kind(k.source)));
    if Named(c.properties, WorkspaceMember) == [Property(WorkspaceMember, "true")] {
      NamedOnce(c.properties, Property(WorkspaceMember, "true"));
    } else {
      NamedOnce(c.properties, Property(WorkspaceMember, "false"));
    }
  }

  // The targets of an accepted edge ascend, none twice.
  lemma AcceptedAscend(n: Naming, lock: Lock, manifest: Manifest, bom: Bom, d: Dependency)
    requires ValidLock(lock) && Accepts(n, lock, manifest, bom) && d in bom.dependencies
    ensures forall i, j :: 0 <= i < j < |d.dependsOn| ==> StrLess(d.dependsOn[i], d.dependsOn[j])
  {
    assert d.dependsOn == SortedSet(d.dependsOn);
    SetAscends(d.dependsOn);
  }

  lemma SetAscends(s: seq<string>)
    ensures forall i, j :: 0 <= i < j < |SortedSet(s)| ==> StrLess(SortedSet(s)[i], SortedSet(s)[j])
  {
    StrLeTotal();
    SortSorted(s, StrLe);
    DedupStrict(Sort(s, StrLe), StrLe);
  }

  // ----- The bill that is written -----

  lemma SortedWithin(lock: Lock)
    ensures forall k :: k in SortedKeys(lock) <==> k in lock.order
  {
    SortMembers(lock.order, KeyLe);
  }

  lemma EdgeWithin(n: Naming, lock: Lock, keys: seq<Key>, k: Key, root: Dependency)
    requires k in keys && forall x :: x in keys ==> x in lock.packages && Resolves(lock, x)
    ensures Dependency(n.ref(k), SortedRefs(n, Resolved(lock, k))) in Edges(n, lock, keys) + [root]
  {
    var i :| 0 <= i < |keys| && keys[i] == k;
    var edges := Edges(n, lock, keys) + [root];
    assert edges[i] == Dependency(n.ref(k), SortedRefs(n, Resolved(lock, k)));
  }

  lemma {:induction false} ByIdPackage(packages: seq<MetaPackage>, id: string)
    requires id in ById(packages)
    ensures exists p :: p in packages && p.id == id && p.key == ById(packages)[id]
  {
    var last := packages[|packages| - 1];
    if last.id != id { ByIdPackage(packages[..|packages| - 1], id); }
  }

  // The targets of the root are exactly the packages with the id of a workspace member.
  ghost predicate PointsAtMembers(n: Naming, m: Metadata, refs: seq<string>) {
    && (forall id :: id in m.members ==> exists p :: p in m.packages && p.id == id && n.ref(p.key) in refs)
    && (forall r :: r in refs ==> exists p :: p in m.packages && p.id in m.members && r == n.ref(p.key))
  }

  lemma MembersPoint(n: Naming, m: Metadata)
    requires forall i :: 0 <= i < |m.members| ==> m.members[i] in ById(m.packages)
    ensures PointsAtMembers(n, m, SortedRefs(n, MemberKeys(m)))
  {
    var keys := MemberKeys(m);
    RefsPoint(n, keys);
    forall i | 0 <= i < |keys| ensures exists p :: p in m.packages && p.id == m.members[i] && p.key == keys[i] && keys[i] in keys {
      ByIdPackage(m.packages, m.members[i]);
    }
  }

  // Every package has an edge in the written bill, to the packages that its lock entry writes.
  lemma BuiltPoints(n: Naming, m: Metadata, lock: Lock, version: string, timestamp: string, k: Key)
    requires ValidLock(lock) && Built(n, m, lock, version, timestamp).Some? && k in lock.order
    ensures k in lock.packages
    ensures exists refs :: Dependency(n.ref(k), refs) in Built(n, m, lock, version, timestamp).value.dependencies
                           && PointsAt(n, lock, k, refs)
  {
    var keys, root := SortedKeys(lock), Dependency(Root(n, version), SortedRefs(n, MemberKeys(m)));
    SortedWithin(lock);
    EdgeWithin(n, lock, keys, k, root);
    SortMembers(Edges(n, lock, keys) + [root], ByRef);
    ResolvedPoints(n, lock, k);
  }

  lemma BuiltRoot(n: Naming, m: Metadata, lock: Lock, version: string, timestamp: string)
    requires ValidLock(lock) && Built(n, m, lock, version, timestamp).Some?
    ensures exists refs :: Dependency(Root(n, version), refs) in Built(n, m, lock, version, timestamp).value.dependencies
                           && PointsAtMembers(n, m, refs)
  {
    var keys, root := SortedKeys(lock), Dependency(Root(n, version), SortedRefs(n, MemberKeys(m)));
    SortedWithin(lock);
    var edges := Edges(n, lock, keys) + [root];
    assert edges[|keys|] == root;
    SortMembers(edges, ByRef);
    MembersPoint(n, m);
  }

  lemma {:induction false} ByKeyPackage(packages: seq<MetaPackage>, k: Key)
    requires k in ByKey(packages)
    ensures ByKey(packages)[k] in packages && ByKey(packages)[k].key == k
  {
    var last := packages[|packages| - 1];
    if last.key != k { ByKeyPackage(packages[..|packages| - 1], k); }
  }

  // What a component says: name, version and URL of its package, the kind of its source, the
  // checksum of the lock file, and whether cargo counts the package among the members.
  ghost predicate Describes(n: Naming, m: Metadata, lock: Lock, k: Key, c: Component)
    requires k in lock.packages
  {
    && c.ref == n.ref(k) && c.name == k.name && c.version == k.version && c.purl == n.purl(k.name, k.version)
    && c.kind == Library && c.hashes == (match lock.packages[k].checksum case None => None case Some(x) => Some([x]))
    && exists p :: p in m.packages && p.key == k && c.extra == p.extra
         && c.properties == [Property(SourceKind, n.kind(k.source)),
                             Property(WorkspaceMember, if p.id in m.members then "true" else "false")]
  }

  // The components are the packages of the lock file, ascending by name, version and source.
  lemma BuiltComponents(n: Naming, m: Metadata, lock: Lock, version: string, timestamp: string)
    requires ValidLock(lock) && Built(n, m, lock, version, timestamp).Some?
    ensures var bom := Built(n, m, lock, version, timestamp).value;
            && |bom.components| == |SortedKeys(lock)| && multiset(SortedKeys(lock)) == multiset(lock.order)
            && forall i :: 0 <= i < |bom.components| ==>
                 SortedKeys(lock)[i] in lock.packages && Describes(n, m, lock, SortedKeys(lock)[i], bom.components[i])
  {
    var bom, keys := Built(n, m, lock, version, timestamp).value, SortedKeys(lock);
    SortedWithin(lock);
    SortMultiset(lock.order, KeyLe);
    forall i | 0 <= i < |bom.components| ensures keys[i] in lock.packages && Describes(n, m, lock, keys[i], bom.components[i]) {
      assert keys[i] in keys;
      ByKeyPackage(m.packages, keys[i]);
    }
  }

  predicate Precedes(a: Key, b: Key) {
    || StrLess(a.name, b.name)
    || (a.name == b.name && StrLess(a.version, b.version))
    || (a.name == b.name && a.version == b.version && StrLess(a.source, b.source))
  }

  lemma KeyOrder()
    ensures TotalPreorder(KeyLe)
  {
    StrLeTotal();
    forall a, b ensures KeyLe(a, b) || KeyLe(b, a) { KeyTotal(a, b); }
    forall a, b, c | KeyLe(a, b) && KeyLe(b, c) ensures KeyLe(a, c) { KeyTransitive(a, b, c); }
  }

  lemma KeyTotal(a: Key, b: Key)
    ensures KeyLe(a, b) || KeyLe(b, a)
    ensures KeyLe(a, b) <==> a == b || Precedes(a, b)
  {
    StrTrichotomy(a.name, b.name);
    StrTrichotomy(a.version, b.version);
    StrTrichotomy(a.source, b.source);
    StrIrreflexive(a.name);
    StrIrreflexive(a.version);
  }

  lemma KeyTransitive(a: Key, b: Key, c: Key)
    requires KeyLe(a, b) && KeyLe(b, c)
    ensures KeyLe(a, c)
  {
    if a.name != b.name && b.name != c.name { StrTransitive(a.name, b.name, c.name); }
    if a.version != b.version && b.version != c.version && a.name == b.name == c.name { StrTransitive(a.version, b.version, c.version); }
    if a.source != b.source && b.source != c.source && a.name == b.name == c.name && a.version == b.version == c.version {
      StrTransitive(a.source, b.source, c.source);
    }
    StrIrreflexive(a.name);
    StrIrreflexive(a.version);
  }

  lemma KeysAscend(lock: Lock)
    requires ValidLock(lock)
    ensures forall i, j :: 0 <= i < j < |SortedKeys(lock)| ==>
              SortedKeys(lock)[i] == SortedKeys(lock)[j] || Precedes(SortedKeys(lock)[i], SortedKeys(lock)[j])
  {
    KeyOrder();
    SortSorted(lock.order, KeyLe);
    forall a, b ensures KeyLe(a, b) <==> a == b || Precedes(a, b) { KeyTotal(a, b); }
  }

  // ----- Two versions of one package -----

  // The version that is written decides, wherever the packages stand.
  lemma VersionDecides(older: Key, newer: Key, order: seq<Key>)
    requires Unique(order) && older in order && newer in order && older.name == newer.name && older.version != newer.version
    requires forall k :: k in order && k.name == newer.name ==> k == older || k == newer
    requires Plain(Coordinate(newer.name, Some(newer.version), None))
    ensures Resolve(CoordinateText(Coordinate(newer.name, Some(newer.version), None)), order) == Some(newer)
    ensures Plain(Coordinate(newer.name, None, None)) ==>
              Resolve(CoordinateText(Coordinate(newer.name, None, None)), order) == None
  {
    var c, short := Coordinate(newer.name, Some(newer.version), None), Coordinate(newer.name, None, None);
    ResolveExactly(c, order);
    assert OnlyMeant(c, order, newer);
    if Plain(short) {
      ResolveExactly(short, order);
      assert Meant(short, older) && Meant(short, newer);
    }
  }
}
