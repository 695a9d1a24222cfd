/**
 The code that writes a bill of materials and the code that checks one.
 */
module SbomRun {
  import opened Json
  import opened Sorting
  import opened Sbom
  import opened SbomLaws
  import opened SbomExact
  import Keyed

  // ----- Writing -----

  method IndexPackages(packages: seq<MetaPackage>) returns (byKey: map<Key, MetaPackage>, byId: map<string, Key>)
    ensures byKey == ByKey(packages) && byId == ById(packages)
  {
    byKey, byId := map[], map[];
    for i := 0 to |packages|
      invariant byKey == ByKey(packages[..i]) && byId == ById(packages[..i])
    {
      assert packages[..i + 1][..i] == packages[..i];
      byKey := byKey[packages[i].key := packages[i]];
      byId := byId[packages[i].id := packages[i].key];
    }
    assert packages[..|packages|] == packages;
  }

  method WriteComponents(n: Naming, m: Metadata, lock: Lock, keys: seq<Key>, byKey: map<Key, MetaPackage>)
    returns (components: Option<seq<Component>>)
    requires byKey == ByKey(m.packages) && byKey.Keys == lock.packages.Keys && forall k :: k in keys ==> k in lock.packages
    ensures components.Some? <==> forall k :: k in keys ==> CheckedSum(n, lock, k)
    ensures components.Some? ==> components.value == Components(n, m, lock, keys)
  {
    var written := [];
    for i := 0 to |keys|
      invariant forall k :: k in keys[..i] ==> CheckedSum(n, lock, k)
      invariant written == Components(n, m, lock, keys[..i])
    {
      var key := keys[i];
      if !CheckedSum(n, lock, key) { return None; }
      written := written + [ComponentFor(n, key, lock.packages[key], byKey[key].id in m.members, byKey[key].extra)];
    }
    assert keys[..|keys|] == keys;
    components := Some(written);
  }

  predicate CheckedSum(n: Naming, lock: Lock, key: Key) {
    key in lock.packages
    && (lock.packages[key].checksum.Some? ==> n.isChecksum(lock.packages[key].checksum.value))
  }

  // The references of one package's dependencies, sorted.
  lemma SettledWhenUnique(lock: Lock, key: Key)
    requires key in lock.packages
    ensures Unique(lock.order) ==> (Resolves(lock, key) <==> Settled(lock, key))
  {
    if Unique(lock.order) { ResolvesExactly(lock, key); }
  }

  method ResolveEach(n: Naming, lock: Lock, key: Key) returns (refs: Option<seq<string>>)
    requires key in lock.packages
    ensures refs.Some? <==> Resolves(lock, key)
    ensures refs.Some? ==> refs.value == RefsOf(n, Resolved(lock, key))
  {
    var ds := lock.packages[key].dependencies;
    var collected := [];
    for i := 0 to |ds|
      invariant forall j :: 0 <= j < i ==> Resolve(ds[j], lock.order).Some?
      invariant |collected| == i && forall j :: 0 <= j < i ==> collected[j] == n.ref(Resolve(ds[j], lock.order).value)
    {
      var target := Resolve(ds[i], lock.order);
      if target.None? { return None; }
      collected := collected + [n.ref(target.value)];
    }
    assert collected == RefsOf(n, Resolved(lock, key));
    refs := Some(collected);
  }

  method ResolveAll(n: Naming, lock: Lock, key: Key) returns (refs: Option<seq<string>>)
    requires key in lock.packages
    ensures refs.Some? <==> Resolves(lock, key)
    ensures refs.Some? ==> refs.value == SortedRefs(n, Resolved(lock, key))
    ensures Unique(lock.order) ==> (refs.Some? <==> Settled(lock, key))
  {
    var targets := ResolveEach(n, lock, key);
    SettledWhenUnique(lock, key);
    refs := if targets.None? then None else Some(Sort(targets.value, StrLe));
  }

  method WriteEdges(n: Naming, lock: Lock, keys: seq<Key>) returns (edges: Option<seq<Dependency>>)
    requires forall k :: k in keys ==> k in lock.packages
    ensures edges.Some? <==> forall k :: k in keys ==> Resolves(lock, k)
    ensures edges.Some? ==> edges.value == Edges(n, lock, keys)
  {
    var written := [];
    for i := 0 to |keys|
      invariant forall k :: k in keys[..i] ==> Resolves(lock, k)
      invariant written == Edges(n, lock, keys[..i])
    {
      var refs := ResolveAll(n, lock, keys[i]);
      if refs.None? { return None; }
      written := written + [Dependency(n.ref(keys[i]), refs.value)];
    }
    assert keys[..|keys|] == keys;
    edges := Some(written);
  }

  method MemberRefs(n: Naming, members: seq<string>, byId: map<string, Key>) returns (refs: Option<seq<string>>)
    ensures refs.Some? <==> forall i :: 0 <= i < |members| ==> members[i] in byId
    ensures refs.Some? ==> |refs.value| == |members|
    ensures refs.Some? ==> forall i :: 0 <= i < |members| ==> refs.value[i] == n.ref(byId[members[i]])
  {
    var collected := [];
    for i := 0 to |members|
      invariant |collected| == i && forall j :: 0 <= j < i ==> members[j] in byId && collected[j] == n.ref(byId[members[j]])
    {
      if members[i] !in byId { return None; }
      collected := collected + [n.ref(byId[members[i]])];
    }
    refs := Some(collected);
  }

  lemma BuiltAll(n: Naming, m: Metadata, lock: Lock, version: string, timestamp: string)
    requires ValidLock(lock)
    ensures var r := Built(n, m, lock, version, timestamp);
            r.Some? ==> forall k :: k in lock.order ==>
              k in lock.packages
              && exists refs :: Dependency(n.ref(k), refs) in r.value.dependencies && PointsAt(n, lock, k, refs)
  {
    var r := Built(n, m, lock, version, timestamp);
    if r.Some? {
      forall k | k in lock.order
        ensures k in lock.packages
                && exists refs :: Dependency(n.ref(k), refs) in r.value.dependencies && PointsAt(n, lock, k, refs)
      {
        BuiltPoints(n, m, lock, version, timestamp, k);
      }
    }
  }

  method BuildSbom(n: Naming, m: Metadata, lock: Lock, version: string, timestamp: string) returns (r: Option<Bom>)
    requires ValidLock(lock)
    ensures r == Built(n, m, lock, version, timestamp)
    ensures r.Some? ==> forall k :: k in lock.order ==>
              k in lock.packages
              && exists refs :: Dependency(n.ref(k), refs) in r.value.dependencies && PointsAt(n, lock, k, refs)
  {
    BuiltAll(n, m, lock, version, timestamp);
    var byKey, byId := IndexPackages(m.packages);
    if byKey.Keys != lock.packages.Keys { return None; }
    var keys := SortedKeys(lock);
    SortMembers(lock.order, KeyLe);
    var components := WriteComponents(n, m, lock, keys, byKey);
    if components.None? { return None; }
    var edges := WriteEdges(n, lock, keys);
    if edges.None? { return None; }
    var members := MemberRefs(n, m.members, byId);
    if members.None? { return None; }
    assert members.value == RefsOf(n, MemberKeys(m));
    var root := Root(n, version);
    var dependencies := edges.value + [Dependency(root, Sort(members.value, StrLe))];
    r := Some(Bom(Header(timestamp, root, PRODUCT, version), components.value, Sort(dependencies, ByRef)));
  }

  // ----- Checking -----

  method IndexRefs(n: Naming, order: seq<Key>) returns (byRef: map<string, Key>)
    ensures byRef == KeyByRef(n, order)
  {
    byRef := map[];
    for i := 0 to |order|
      invariant byRef == KeyByRef(n, order[..i])
    {
      assert order[..i + 1][..i] == order[..i];
      byRef := byRef[n.ref(order[i]) := order[i]];
    }
    assert order[..|order|] == order;
  }

  method CheckComponents(n: Naming, lock: Lock, components: seq<Component>) returns (ok: bool)
    requires ValidLock(lock)
    ensures ok <==> ComponentsHold(n, lock, components)
  {
    var byRef := IndexRefs(n, lock.order);
    var actual := [];
    for i := 0 to |components|
      invariant forall c :: c in components[..i] ==> Known(n, lock, c)
      invariant actual == ComponentRefs(components[..i]) && Unique(actual)
    {
      var c := components[i];
      assert c in components && components[..i + 1] == components[..i] + [c];
      UniqueSnoc(actual, c.ref);
      if c.ref in actual {
        NotUnique(components, i);
        return false;
      }
      if c.ref !in byRef || byRef[c.ref] !in lock.packages || !Identified(n, byRef[c.ref], lock.packages[byRef[c.ref]], c) {
        return false;
      }
      actual := actual + [c.ref];
    }
    assert components[..|components|] == components;
    ok := actual == RefsOf(n, SortedKeys(lock));
  }

  lemma NotUnique(components: seq<Component>, i: nat)
    requires i < |components| && components[i].ref in ComponentRefs(components[..i])
    ensures !Unique(ComponentRefs(components))
  {
    var j :| 0 <= j < i && ComponentRefs(components[..i])[j] == components[i].ref;
    assert ComponentRefs(components)[j] == ComponentRefs(components)[i];
  }

  method ExpectedEdges(n: Naming, lock: Lock) returns (edges: Option<map<string, seq<string>>>)
    requires ValidLock(lock)
    ensures edges.Some? <==> AllResolve(lock)
    ensures edges.Some? ==> edges.value == EdgeMap(n, lock, lock.order)
  {
    var expected := map[];
    for i := 0 to |lock.order|
      invariant forall k :: k in lock.order[..i] ==> k in lock.packages && Resolves(lock, k)
      invariant expected == EdgeMap(n, lock, lock.order[..i])
    {
      var key := lock.order[i];
      assert lock.order[..i + 1][..i] == lock.order[..i] && key in lock.order;
      var refs := ResolveAll(n, lock, key);
      if refs.None? { return None; }
      expected := expected[n.ref(key) := refs.value];
    }
    assert lock.order[..|lock.order|] == lock.order;
    edges := Some(expected);
  }

  method CollectEdges(dependencies: seq<Dependency>) returns (edges: Option<map<string, seq<string>>>)
    ensures edges.Some? <==> UniqueRefs(dependencies) && Canonical(dependencies)
    ensures edges.Some? ==> edges.value == ActualEdges(dependencies)
  {
    var actual := map[];
    for i := 0 to |dependencies|
      invariant UniqueRefs(dependencies[..i]) && Canonical(dependencies[..i])
      invariant actual == ActualEdges(dependencies[..i])
    {
      var d, front := dependencies[i], dependencies[..i];
      assert dependencies[..i + 1] == front + [d] && dependencies[..i + 1][..i] == front;
      assert d in dependencies;
      ActualIs(front);
      Keyed.DistinctSnoc(RefOf, front, d);
      RefListed(front, d.ref);
      if d.ref in actual {
        RepeatedRef(dependencies, i);
        return None;
      }
      if d.dependsOn != SortedSet(d.dependsOn) { return None; }
      actual := actual[d.ref := d.dependsOn];
    }
    assert dependencies[..|dependencies|] == dependencies;
    edges := Some(actual);
  }

  lemma RefListed(front: seq<Dependency>, r: string)
    requires UniqueRefs(front)
    ensures r in ActualEdges(front) <==> r in Keyed.Keys(RefOf, front)
  {
    ActualIs(front);
    if r in ActualEdges(front) {
      var d :| d in front && d.ref == r;
      Keyed.KeyMember(RefOf, front, d);
    }
    if r in Keyed.Keys(RefOf, front) {
      var i :| 0 <= i < |front| && RefOf(front[i]) == r;
      assert front[i] in front;
    }
  }

  lemma RepeatedRef(dependencies: seq<Dependency>, i: nat)
    requires i < |dependencies| && dependencies[i].ref in Keyed.Keys(RefOf, dependencies[..i])
    ensures !UniqueRefs(dependencies)
  {
    var j :| 0 <= j < i && RefOf(dependencies[..i][j]) == dependencies[i].ref;
    assert RefOf(dependencies[j]) == RefOf(dependencies[i]);
  }

  lemma AcceptedAll(n: Naming, lock: Lock, manifest: Manifest, bom: Bom)
    requires ValidLock(lock)
    ensures Accepts(n, lock, manifest, bom) && Injective(n, lock, Root(n, manifest.version)) ==>
              forall k :: k in lock.order ==>
                k in lock.packages
                && exists refs :: Dependency(n.ref(k), refs) in bom.dependencies && PointsAt(n, lock, k, refs)
  {
    if Accepts(n, lock, manifest, bom) && Injective(n, lock, Root(n, manifest.version)) {
      forall k | k in lock.order
        ensures k in lock.packages
                && exists refs :: Dependency(n.ref(k), refs) in bom.dependencies && PointsAt(n, lock, k, refs)
      {
        AcceptedPoints(n, lock, manifest, bom, k);
      }
    }
  }

  method VerifySbom(n: Naming, lock: Lock, manifest: Manifest, bom: Bom) returns (ok: bool)
    requires ValidLock(lock)
    ensures ok <==> Accepts(n, lock, manifest, bom)
    ensures ok && Injective(n, lock, Root(n, manifest.version)) ==>
              forall k :: k in lock.order ==>
                k in lock.packages
                && exists refs :: Dependency(n.ref(k), refs) in bom.dependencies && PointsAt(n, lock, k, refs)
  {
    AcceptedAll(n, lock, manifest, bom);
    var root := Root(n, manifest.version);
    if bom.header != Header(manifest.createdAt, root, manifest.name, manifest.version) { return false; }
    if |bom.components| != |lock.order| || |bom.dependencies| != |lock.order| + 1 { return false; }
    var described := CheckComponents(n, lock, bom.components);
    if !described { return false; }
    var expected := ExpectedEdges(n, lock);
    if expected.None? { return false; }
    var actual := CollectEdges(bom.dependencies);
    if actual.None? { return false; }
    ok := actual.value == expected.value[root := SortedRefs(n, Sourceless(lock.order))];
  }
}
