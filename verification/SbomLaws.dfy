/**
 The writer and the checker of the bill of materials agree.
 */
module SbomLaws {
  import opened Json
  import opened Sorting
  import opened Text
  import opened Sbom
  import Keyed

  // ----- Lists without repetition -----

  lemma {:induction false} UniqueCount<T(!new)>(s: seq<T>)
    ensures Unique(s) <==> forall x :: multiset(s)[x] <= 1
  {
    if s != [] {
      var front, last := s[..|s| - 1], s[|s| - 1];
      assert s == front + [last];
      UniqueCount(front);
      UniqueSnoc(front, last);
      assert multiset(s) == multiset(front) + multiset{last};
      if last in front { assert last in multiset(front); }
      forall x ensures multiset(s)[x] == multiset(front)[x] + if x == last then 1 else 0 {}
      if last !in front { assert last !in multiset(front); }
    }
  }

  lemma UniqueSnoc<T>(front: seq<T>, last: T)
    ensures Unique(front + [last]) <==> Unique(front) && last !in front
  {
    var s := front + [last];
    if Unique(s) {
      forall i, j | 0 <= i < j < |front| ensures front[i] != front[j] { assert front[i] == s[i] && front[j] == s[j]; }
      forall i | 0 <= i < |front| ensures front[i] != last { assert front[i] == s[i] && last == s[|front|]; }
    }
  }

  lemma UniquePermuted<T(!new)>(a: seq<T>, b: seq<T>)
    requires multiset(a) == multiset(b)
    ensures Unique(a) <==> Unique(b)
  {
    UniqueCount(a);
    UniqueCount(b);
  }

  // ----- Sorted lists of references -----

  lemma {:induction false} SortFixed(s: seq<string>)
    requires Sorted(s, StrLe)
    ensures Sort(s, StrLe) == s
  {
    if s != [] {
      SortFixed(s[1..]);
      assert s == [s[0]] + s[1..];
      if |s| > 1 { assert StrLe(s[0], s[1]); }
    }
  }

  lemma {:induction false} DedupFixed(s: seq<string>)
    requires Unique(s)
    ensures Dedup(s) == s
  {
    if |s| >= 2 {
      assert s[0] != s[1];
      forall i, j | 0 <= i < j < |s[1..]| ensures s[1..][i] != s[1..][j] {
        assert s[1..][i] == s[i + 1] && s[1..][j] == s[j + 1];
      }
      DedupFixed(s[1..]);
      assert s == [s[0]] + s[1..];
    }
  }

  // A sorted list is its own sorted set exactly when nothing in it repeats.
  lemma SortedSetExactly(y: seq<string>)
    ensures SortedSet(Sort(y, StrLe)) == Sort(y, StrLe) <==> Unique(y)
  {
    var s := Sort(y, StrLe);
    StrLeTotal();
    SortSorted(y, StrLe);
    SortMultiset(y, StrLe);
    SortFixed(s);
    UniquePermuted(y, s);
    if Unique(y) {
      DedupFixed(s);
    }
    if SortedSet(s) == s {
      DedupStrict(s, StrLe);
    }
  }

  // ----- References of keys -----

  ghost predicate InjectiveOn(n: Naming, keys: set<Key>) {
    forall a, b :: a in keys && b in keys && n.ref(a) == n.ref(b) ==> a == b
  }

  lemma {:induction false} RefCount(n: Naming, keys: seq<Key>, k: Key, all: set<Key>)
    requires InjectiveOn(n, all) && k in all && forall x :: x in keys ==> x in all
    ensures multiset(RefsOf(n, keys))[n.ref(k)] == multiset(keys)[k]
  {
    if keys != [] {
      var front, last := keys[..|keys| - 1], keys[|keys| - 1];
      RefCount(n, front, k, all);
      assert keys == front + [last];
      assert RefsOf(n, keys) == RefsOf(n, front) + [n.ref(last)];
    }
  }

  lemma RefMember(n: Naming, keys: seq<Key>, r: string)
    requires r in RefsOf(n, keys)
    ensures exists k :: k in keys && n.ref(k) == r
  {
    var i :| 0 <= i < |keys| && RefsOf(n, keys)[i] == r;
    assert keys[i] in keys;
  }

  lemma RefsUnique(n: Naming, keys: seq<Key>, all: set<Key>)
    requires InjectiveOn(n, all) && forall x :: x in keys ==> x in all
    ensures Unique(RefsOf(n, keys)) <==> Unique(keys)
  {
    var refs := RefsOf(n, keys);
    if Unique(keys) {
      forall i, j | 0 <= i < j < |refs| ensures refs[i] != refs[j] { assert keys[i] in keys && keys[j] in keys; }
    }
    if Unique(refs) {
      forall i, j | 0 <= i < j < |keys| ensures keys[i] != keys[j] { assert refs[i] != refs[j]; }
    }
  }

  // Under distinct references two lists of packages sort to the same references
  // exactly when they hold the same packages, as often.
  lemma SameSortedRefs(n: Naming, a: seq<Key>, b: seq<Key>, all: set<Key>)
    requires InjectiveOn(n, all) && (forall x :: x in a || x in b ==> x in all) && Unique(b)
    ensures SortedRefs(n, a) == SortedRefs(n, b) <==> multiset(a) == multiset(b)
  {
    var x, y := RefsOf(n, a), RefsOf(n, b);
    SortMultiset(x, StrLe);
    SortMultiset(y, StrLe);
    if SortedRefs(n, a) == SortedRefs(n, b) {
      assert multiset(x) == multiset(y);
      forall k ensures multiset(a)[k] == multiset(b)[k] {
        if k in all {
          RefCount(n, a, k, all);
          RefCount(n, b, k, all);
        } else {
          assert k !in a && k !in b;
        }
      }
    }
    if multiset(a) == multiset(b) {
      SameRefs(n, a, b, all);
    }
  }

  lemma SameRefs(n: Naming, a: seq<Key>, b: seq<Key>, all: set<Key>)
    requires InjectiveOn(n, all) && (forall x :: x in a || x in b ==> x in all) && Unique(b)
    requires multiset(a) == multiset(b)
    ensures SortedRefs(n, a) == SortedRefs(n, b)
  {
    var x, y := RefsOf(n, a), RefsOf(n, b);
    UniquePermuted(a, b);
    RefsUnique(n, a, all);
    RefsUnique(n, b, all);
    SortedStrictly(x);
    SortedStrictly(y);
    SortMembers(x, StrLe);
    SortMembers(y, StrLe);
    forall r ensures r in x <==> r in y {
      if r in x { RefsWithin(n, a, b, r); }
      if r in y { RefsWithin(n, b, a, r); }
    }
    StrictlySortedUnique(Sort(x, StrLe), Sort(y, StrLe), StrLe);
  }

  lemma RefsWithin(n: Naming, a: seq<Key>, b: seq<Key>, r: string)
    requires multiset(a) == multiset(b) && r in RefsOf(n, a)
    ensures r in RefsOf(n, b)
  {
    RefMember(n, a, r);
    var k :| k in a && n.ref(k) == r;
    assert k in multiset(b);
    var i :| 0 <= i < |b| && b[i] == k;
    assert RefsOf(n, b)[i] == r;
  }

  lemma SortedStrictly(x: seq<string>)
    requires Unique(x)
    ensures StrictlySorted(Sort(x, StrLe), StrLe) && AntisymmetricOn(Sort(x, StrLe), StrLe)
  {
    StrLeTotal();
    SortSorted(x, StrLe);
    SortMultiset(x, StrLe);
    UniquePermuted(x, Sort(x, StrLe));
  }

  // ----- Components -----

  lemma {:induction false} KeyByRefIs(n: Naming, order: seq<Key>, all: set<Key>)
    requires InjectiveOn(n, all) && forall x :: x in order ==> x in all
    ensures forall k :: k in order ==> n.ref(k) in KeyByRef(n, order) && KeyByRef(n, order)[n.ref(k)] == k
  {
    if order != [] {
      var front, last := order[..|order| - 1], order[|order| - 1];
      assert order == front + [last];
      KeyByRefIs(n, front, all);
    }
  }

  lemma WrittenIdentified(n: Naming, key: Key, p: Package, member: bool, extra: Json)
    ensures Identified(n, key, p, ComponentFor(n, key, p, member, extra))
  {
    var properties := ComponentFor(n, key, p, member, extra).properties;
    assert properties[1..][1..] == [] && properties[1..][0] == properties[1];
    assert Named(properties[1..][1..], SourceKind) == [] && Named(properties[1..][1..], WorkspaceMember) == [];
    assert Named(properties[1..], SourceKind) == [] && Named(properties[1..], WorkspaceMember) == [properties[1]];
  }

  function KeySet(lock: Lock): set<Key> {
    lock.packages.Keys
  }

  lemma WrittenKnown(n: Naming, m: Metadata, lock: Lock, keys: seq<Key>, i: nat)
    requires InjectiveOn(n, KeySet(lock)) && forall k :: k in lock.order <==> k in lock.packages
    requires ByKey(m.packages).Keys == lock.packages.Keys && (forall k :: k in keys ==> k in lock.packages) && i < |keys|
    ensures Known(n, lock, Components(n, m, lock, keys)[i])
  {
    var key := keys[i];
    assert key in keys && key in lock.order;
    KeyByRefIs(n, lock.order, KeySet(lock));
    var package := ByKey(m.packages)[key];
    WrittenIdentified(n, key, lock.packages[key], package.id in m.members, package.extra);
  }

  lemma WrittenRefs(n: Naming, m: Metadata, lock: Lock, keys: seq<Key>)
    requires ByKey(m.packages).Keys == lock.packages.Keys && (forall k :: k in keys ==> k in lock.packages)
    ensures ComponentRefs(Components(n, m, lock, keys)) == RefsOf(n, keys)
  {
  }

  lemma WrittenComponents(n: Naming, m: Metadata, lock: Lock, root: string)
    requires ValidLock(lock) && Injective(n, lock, root) && Buildable(n, m, lock)
    requires forall k :: k in SortedKeys(lock) ==> k in lock.packages
    ensures ComponentsHold(n, lock, Components(n, m, lock, SortedKeys(lock)))
    ensures |SortedKeys(lock)| == |lock.order|
  {
    var keys := SortedKeys(lock);
    var components := Components(n, m, lock, keys);
    SortMultiset(lock.order, KeyLe);
    UniquePermuted(lock.order, keys);
    RefsUnique(n, keys, KeySet(lock));
    WrittenRefs(n, m, lock, keys);
    forall c | c in components ensures Known(n, lock, c) {
      var i :| 0 <= i < |components| && components[i] == c;
      WrittenKnown(n, m, lock, keys, i);
    }
  }

  // ----- Edges -----

  lemma {:induction false} EdgeMapIs(n: Naming, lock: Lock, keys: seq<Key>, all: set<Key>)
    requires InjectiveOn(n, all) && forall k :: k in keys ==> k in all && k in lock.packages && Resolves(lock, k)
    ensures forall k :: k in keys ==>
              n.ref(k) in EdgeMap(n, lock, keys)
              && EdgeMap(n, lock, keys)[n.ref(k)] == SortedRefs(n, Resolved(lock, k))
    ensures forall r :: r in EdgeMap(n, lock, keys) ==> exists k :: k in keys && n.ref(k) == r
  {
    if keys != [] {
      var front, last := keys[..|keys| - 1], keys[|keys| - 1];
      assert keys == front + [last];
      EdgeMapIs(n, lock, front, all);
    }
  }

  lemma {:induction false} ActualIs(dependencies: seq<Dependency>)
    requires UniqueRefs(dependencies)
    ensures forall d :: d in dependencies ==>
              d.ref in ActualEdges(dependencies) && ActualEdges(dependencies)[d.ref] == d.dependsOn
    ensures forall r :: r in ActualEdges(dependencies) ==> exists d :: d in dependencies && d.ref == r
  {
    if dependencies != [] {
      var front, last := dependencies[..|dependencies| - 1], dependencies[|dependencies| - 1];
      assert dependencies == front + [last];
      Keyed.DistinctSnoc(RefOf, front, last);
      ActualIs(front);
      forall d | d in front ensures d.ref != last.ref { Keyed.KeyMember(RefOf, front, d); }
    }
  }

  lemma {:induction false} SourcelessIs(order: seq<Key>)
    ensures forall k :: k in Sourceless(order) <==> k in order && k.source == ""
    ensures Unique(order) ==> Unique(Sourceless(order))
  {
    if order != [] {
      SourcelessIs(order[1..]);
      assert order == [order[0]] + order[1..];
      if Unique(order) {
        forall i, j | 0 <= i < j < |order[1..]| ensures order[1..][i] != order[1..][j] {
          assert order[1..][i] == order[i + 1] && order[1..][j] == order[j + 1];
        }
        forall i | 0 <= i < |order[1..]| ensures order[1..][i] != order[0] { assert order[1..][i] == order[i + 1]; }
      }
    }
  }

  // All edges the writer lists, before it sorts them.
  function Listed(n: Naming, lock: Lock, keys: seq<Key>, root: string, members: seq<Key>): seq<Dependency>
    requires forall k :: k in keys ==> k in lock.packages && Resolves(lock, k)
  {
    Edges(n, lock, keys) + [Dependency(root, SortedRefs(n, members))]
  }

  lemma ListedUnique(n: Naming, lock: Lock, keys: seq<Key>, root: string, members: seq<Key>, all: set<Key>)
    requires InjectiveOn(n, all) && Unique(keys)
    requires forall k :: k in keys ==> k in all && k in lock.packages && Resolves(lock, k) && n.ref(k) != root
    ensures UniqueRefs(Listed(n, lock, keys, root, members))
  {
    var edges := Edges(n, lock, keys);
    forall i, j | 0 <= i < j < |edges| ensures RefOf(edges[i]) != RefOf(edges[j]) {
      assert keys[i] in keys && keys[j] in keys && keys[i] != keys[j];
    }
    forall i | 0 <= i < |edges| ensures RefOf(edges[i]) != root { assert keys[i] in keys; }
    Keyed.DistinctSnoc(RefOf, edges, Dependency(root, SortedRefs(n, members)));
  }

  lemma ListedHas(n: Naming, lock: Lock, keys: seq<Key>, root: string, members: seq<Key>, d: Dependency)
    requires forall k :: k in keys ==> k in lock.packages && Resolves(lock, k)
    ensures d in Listed(n, lock, keys, root, members) <==>
              d == Dependency(root, SortedRefs(n, members))
              || exists k :: k in keys && d == Dependency(n.ref(k), SortedRefs(n, Resolved(lock, k)))
  {
    var edges := Edges(n, lock, keys);
    if d in edges {
      var i :| 0 <= i < |edges| && edges[i] == d;
      assert keys[i] in keys;
    }
    if exists k :: k in keys && d == Dependency(n.ref(k), SortedRefs(n, Resolved(lock, k))) {
      var k :| k in keys && d == Dependency(n.ref(k), SortedRefs(n, Resolved(lock, k)));
      var i :| 0 <= i < |keys| && keys[i] == k;
      assert edges[i] == d;
    }
  }

  ghost predicate DistinctDependencies(lock: Lock, keys: seq<Key>)
    requires forall k :: k in keys ==> k in lock.packages && Resolves(lock, k)
  {
    forall k :: k in keys ==> Unique(Resolved(lock, k))
  }

  lemma ResolvedWithin(lock: Lock, key: Key)
    requires key in lock.packages && Resolves(lock, key)
    ensures forall k :: k in Resolved(lock, key) ==> k in lock.order
  {
    var ds := lock.packages[key].dependencies;
    forall i | 0 <= i < |ds| ensures Resolved(lock, key)[i] in lock.order {
      CandidatesWithin(ParseCoordinate(ds[i]).value, lock.order);
      var candidates := Candidates(ParseCoordinate(ds[i]).value, lock.order);
      assert candidates[0] in candidates;
    }
  }

  lemma {:induction false} CandidatesWithin(c: Coordinate, order: seq<Key>)
    ensures forall k :: k in Candidates(c, order) <==> k in order && Fits(c, k)
  {
    if order != [] {
      CandidatesWithin(c, order[1..]);
      assert order == [order[0]] + order[1..];
    }
  }

  // The edges are in canonical form exactly when no package depends on another twice.
  lemma ListedCanonical(n: Naming, lock: Lock, keys: seq<Key>, root: string, members: seq<Key>)
    requires InjectiveOn(n, KeySet(lock)) && ValidLock(lock)
    requires forall k :: k in keys ==> k in lock.packages && Resolves(lock, k)
    requires forall k :: k in members ==> k in lock.packages
    ensures Canonical(Listed(n, lock, keys, root, members))
            <==> DistinctDependencies(lock, keys) && Unique(members)
  {
    var listed := Listed(n, lock, keys, root, members);
    RefsUnique(n, members, KeySet(lock));
    SortedSetExactly(RefsOf(n, members));
    ListedHas(n, lock, keys, root, members, Dependency(root, SortedRefs(n, members)));
    forall k | k in keys
      ensures SortedSet(SortedRefs(n, Resolved(lock, k))) == SortedRefs(n, Resolved(lock, k)) <==> Unique(Resolved(lock, k))
      ensures Dependency(n.ref(k), SortedRefs(n, Resolved(lock, k))) in listed
    {
      ResolvedWithin(lock, k);
      RefsUnique(n, Resolved(lock, k), KeySet(lock));
      SortedSetExactly(RefsOf(n, Resolved(lock, k)));
      ListedHas(n, lock, keys, root, members, Dependency(n.ref(k), SortedRefs(n, Resolved(lock, k))));
    }
    forall d | d in listed
      ensures d == Dependency(root, SortedRefs(n, members))
              || exists k :: k in keys && d == Dependency(n.ref(k), SortedRefs(n, Resolved(lock, k)))
    {
      ListedHas(n, lock, keys, root, members, d);
    }
    if Canonical(listed) {
      forall k | k in keys ensures Unique(Resolved(lock, k)) {
        assert Dependency(n.ref(k), SortedRefs(n, Resolved(lock, k))) in listed;
      }
    }
  }

  // At every package the listed edges are the expected ones.
  lemma ListedAt(n: Naming, lock: Lock, keys: seq<Key>, root: string, members: seq<Key>, sorted: seq<Dependency>, k: Key)
    requires ValidLock(lock) && InjectiveOn(n, KeySet(lock)) && AllResolve(lock) && k in keys && k in lock.order
    requires forall x :: x in keys ==> x in lock.packages && Resolves(lock, x)
    requires UniqueRefs(sorted) && forall d :: d in sorted <==> d in Listed(n, lock, keys, root, members)
    ensures n.ref(k) in ActualEdges(sorted) && n.ref(k) in EdgeMap(n, lock, lock.order)
    ensures ActualEdges(sorted)[n.ref(k)] == EdgeMap(n, lock, lock.order)[n.ref(k)]
  {
    var d := Dependency(n.ref(k), SortedRefs(n, Resolved(lock, k)));
    ListedHas(n, lock, keys, root, members, d);
    ActualIs(sorted);
    assert d in sorted;
    EdgeMapIs(n, lock, lock.order, KeySet(lock));
  }

  lemma ListedRoot(n: Naming, lock: Lock, keys: seq<Key>, root: string, members: seq<Key>, sorted: seq<Dependency>)
    requires forall x :: x in keys ==> x in lock.packages && Resolves(lock, x)
    requires UniqueRefs(sorted) && forall d :: d in sorted <==> d in Listed(n, lock, keys, root, members)
    ensures root in ActualEdges(sorted) && ActualEdges(sorted)[root] == SortedRefs(n, members)
  {
    var top := Dependency(root, SortedRefs(n, members));
    ListedHas(n, lock, keys, root, members, top);
    ActualIs(sorted);
    assert top in sorted;
  }

  lemma ListedOnly(n: Naming, lock: Lock, keys: seq<Key>, root: string, members: seq<Key>, sorted: seq<Dependency>, r: string)
    requires forall x :: x in keys ==> x in lock.packages && Resolves(lock, x)
    requires UniqueRefs(sorted) && forall d :: d in sorted <==> d in Listed(n, lock, keys, root, members)
    requires r in ActualEdges(sorted)
    ensures r == root || exists k :: k in keys && n.ref(k) == r
  {
    ActualIs(sorted);
    var d :| d in sorted && d.ref == r;
    ListedHas(n, lock, keys, root, members, d);
  }

  lemma ListedKeys(n: Naming, lock: Lock, keys: seq<Key>, root: string, members: seq<Key>, sorted: seq<Dependency>)
    requires ValidLock(lock) && InjectiveOn(n, KeySet(lock)) && AllResolve(lock)
    requires forall k :: k in keys <==> k in lock.order
    requires forall x :: x in keys ==> x in lock.packages && Resolves(lock, x)
    requires UniqueRefs(sorted) && forall d :: d in sorted <==> d in Listed(n, lock, keys, root, members)
    ensures ActualEdges(sorted).Keys == EdgeMap(n, lock, lock.order).Keys + {root}
  {
    ListedRoot(n, lock, keys, root, members, sorted);
    forall r | r in ActualEdges(sorted) ensures r in EdgeMap(n, lock, lock.order).Keys + {root} {
      ListedOnly(n, lock, keys, root, members, sorted, r);
      if r != root {
        var k :| k in keys && n.ref(k) == r;
        ListedAt(n, lock, keys, root, members, sorted, k);
      }
    }
    forall r | r in EdgeMap(n, lock, lock.order) ensures r in ActualEdges(sorted) {
      EdgeMapIs(n, lock, lock.order, KeySet(lock));
      var k :| k in lock.order && n.ref(k) == r;
      ListedAt(n, lock, keys, root, members, sorted, k);
    }
  }

  lemma RootApart(n: Naming, lock: Lock, root: string)
    requires ValidLock(lock) && Injective(n, lock, root) && AllResolve(lock)
    ensures root !in EdgeMap(n, lock, lock.order)
  {
    EdgeMapIs(n, lock, lock.order, KeySet(lock));
  }

  // The edge map that was listed is the expected one exactly when the root has its edges right.
  lemma ListedMap(n: Naming, lock: Lock, keys: seq<Key>, root: string, members: seq<Key>, sorted: seq<Dependency>)
    requires ValidLock(lock) && Injective(n, lock, root) && AllResolve(lock)
    requires forall k :: k in keys <==> k in lock.order
    requires forall k :: k in keys ==> k in lock.packages && Resolves(lock, k)
    requires UniqueRefs(sorted) && forall d :: d in sorted <==> d in Listed(n, lock, keys, root, members)
    ensures ActualEdges(sorted) == EdgeMap(n, lock, lock.order)[root := SortedRefs(n, Sourceless(lock.order))]
            <==> SortedRefs(n, members) == SortedRefs(n, Sourceless(lock.order))
  {
    var actual, edges := ActualEdges(sorted), EdgeMap(n, lock, lock.order);
    ListedKeys(n, lock, keys, root, members, sorted);
    ListedRoot(n, lock, keys, root, members, sorted);
    RootApart(n, lock, root);
    forall r | r in edges ensures actual[r] == edges[r] {
      EdgeMapIs(n, lock, lock.order, KeySet(lock));
      var k :| k in lock.order && n.ref(k) == r;
      ListedAt(n, lock, keys, root, members, sorted, k);
    }
    SameMaps(actual, edges, root, SortedRefs(n, members), SortedRefs(n, Sourceless(lock.order)));
  }

  lemma SameMaps(actual: map<string, seq<string>>, edges: map<string, seq<string>>, root: string,
                 a: seq<string>, b: seq<string>)
    requires actual.Keys == edges.Keys + {root} && root !in edges && actual[root] == a
    requires forall r :: r in edges ==> actual[r] == edges[r]
    ensures actual == edges[root := b] <==> a == b
  {
    if actual == edges[root := b] { assert actual[root] == edges[root := b][root]; }
  }

  // What the writer's edges have to satisfy to be accepted.
  ghost predicate Consistent(lock: Lock, members: seq<Key>)
    requires AllResolve(lock)
  {
    DistinctDependencies(lock, lock.order) && multiset(members) == multiset(Sourceless(lock.order))
  }

  lemma WrittenEdges(n: Naming, lock: Lock, keys: seq<Key>, root: string, members: seq<Key>)
    requires ValidLock(lock) && Injective(n, lock, root) && AllResolve(lock)
    requires multiset(keys) == multiset(lock.order) && forall k :: k in keys <==> k in lock.order
    requires forall k :: k in members ==> k in lock.order
    ensures EdgesHold(n, lock, root, Sort(Listed(n, lock, keys, root, members), ByRef))
            <==> Consistent(lock, members)
  {
    var listed := Listed(n, lock, keys, root, members);
    var sorted := Sort(listed, ByRef);
    SortMembers(listed, ByRef);
    SortMultiset(listed, ByRef);
    UniquePermuted(keys, lock.order);
    assert |keys| == |multiset(keys)| == |lock.order|;
    ListedUnique(n, lock, keys, root, members, KeySet(lock));
    Keyed.KeysPermuted(RefOf, listed, sorted);
    ListedCanonical(n, lock, keys, root, members);
    assert Canonical(sorted) <==> Canonical(listed);
    ListedMap(n, lock, keys, root, members, sorted);
    SourcelessIs(lock.order);
    SameSortedRefs(n, members, Sourceless(lock.order), KeySet(lock));
    if multiset(members) == multiset(Sourceless(lock.order)) {
      UniquePermuted(members, Sourceless(lock.order));
    }
  }

  lemma {:induction false} ByIdWithin(packages: seq<MetaPackage>)
    ensures forall id :: id in ById(packages) ==> ById(packages)[id] in ByKey(packages)
  {
    if packages != [] { ByIdWithin(packages[..|packages| - 1]); }
  }

  lemma MembersWithin(n: Naming, m: Metadata, lock: Lock)
    requires ValidLock(lock) && Buildable(n, m, lock)
    ensures forall k :: k in MemberKeys(m) ==> k in lock.order
  {
    ByIdWithin(m.packages);
  }

  // The checker accepts what the writer writes exactly when no package depends on
  // another twice and the workspace members are the packages without a source.
  lemma WrittenAccepted(n: Naming, m: Metadata, lock: Lock, manifest: Manifest)
    requires ValidLock(lock) && Injective(n, lock, Root(n, manifest.version)) && manifest.name == PRODUCT
    requires Built(n, m, lock, manifest.version, manifest.createdAt).Some?
    ensures AllResolve(lock)
    ensures Accepts(n, lock, manifest, Built(n, m, lock, manifest.version, manifest.createdAt).value)
            <==> Consistent(lock, MemberKeys(m))
  {
    var keys, root := SortedKeys(lock), Root(n, manifest.version);
    SortMembers(lock.order, KeyLe);
    SortMultiset(lock.order, KeyLe);
    WrittenComponents(n, m, lock, root);
    MembersWithin(n, m, lock);
    WrittenEdges(n, lock, keys, root, MemberKeys(m));
  }

  // ----- A bill that is written and refused -----

  lemma {:induction false} SourcelessHas(order: seq<Key>, k: Key)
    requires k in order && k.source == ""
    ensures k in Sourceless(order)
  {
    if order[0] != k { SourcelessHas(order[1..], k); }
  }

  // A package without a source that is no workspace member.
  lemma OutsiderRefused(n: Naming, m: Metadata, lock: Lock, manifest: Manifest, outside: Key)
    requires ValidLock(lock) && Injective(n, lock, Root(n, manifest.version)) && manifest.name == PRODUCT
    requires Built(n, m, lock, manifest.version, manifest.createdAt).Some?
    requires outside in lock.order && outside.source == "" && outside !in MemberKeys(m)
    ensures !Accepts(n, lock, manifest, Built(n, m, lock, manifest.version, manifest.createdAt).value)
  {
    WrittenAccepted(n, m, lock, manifest);
    SourcelessHas(lock.order, outside);
    assert outside in multiset(Sourceless(lock.order)) && outside !in multiset(MemberKeys(m));
  }

  // A workspace of one member, which depends on a package by path.
  function PathLock(member: Key, outside: Key): Lock {
    Lock([member, outside], map[member := Package(None, [outside.name]), outside := Package(None, [])])
  }

  function PathMetadata(member: Key, outside: Key, id: string, other: string): Metadata {
    Metadata([MetaPackage(id, member, Null), MetaPackage(other, outside, Null)], [id])
  }

  lemma PathResolves(member: Key, outside: Key)
    requires member.name != outside.name && outside.name != "" && ' ' !in outside.name
    ensures Resolve(outside.name, [member, outside]) == Some(outside)
  {
    SplitWhole(outside.name, ' ');
    var c := Coordinate(outside.name, None, None);
    assert LastParen(outside.name, |outside.name|).None?;
    assert ParseCoordinate(outside.name) == Some(c);
    assert [member, outside][1..] == [outside] && [outside][1..] == [];
    assert Candidates(c, [outside]) == [outside];
    assert Candidates(c, [member, outside]) == [outside];
  }

  lemma TwoPackages(a: MetaPackage, b: MetaPackage)
    ensures ByKey([a, b]) == map[a.key := a][b.key := b] && ById([a, b]) == map[a.id := a.key][b.id := b.key]
  {
    assert [a, b][..1] == [a] && [a][..0] == [];
    assert ByKey([a]) == map[][a.key := a] && ById([a]) == map[][a.id := a.key];
  }

  lemma PathBuildable(n: Naming, member: Key, outside: Key, id: string, other: string)
    requires member.name != outside.name && outside.name != "" && ' ' !in outside.name && id != other
    ensures Buildable(n, PathMetadata(member, outside, id, other), PathLock(member, outside))
    ensures MemberKeys(PathMetadata(member, outside, id, other)) == [member]
  {
    var m, lock := PathMetadata(member, outside, id, other), PathLock(member, outside);
    PathResolves(member, outside);
    TwoPackages(m.packages[0], m.packages[1]);
  }

  // What the writer writes for it, the checker refuses.
  lemma PathRefused(n: Naming, member: Key, outside: Key, id: string, other: string, manifest: Manifest)
    requires member.name != outside.name && outside.name != "" && ' ' !in outside.name && id != other
    requires outside.source == "" && manifest.name == PRODUCT
    requires Injective(n, PathLock(member, outside), Root(n, manifest.version))
    ensures var m, lock := PathMetadata(member, outside, id, other), PathLock(member, outside);
            && ValidLock(lock) && Built(n, m, lock, manifest.version, manifest.createdAt).Some?
            && !Accepts(n, lock, manifest, Built(n, m, lock, manifest.version, manifest.createdAt).value)
  {
    var m, lock := PathMetadata(member, outside, id, other), PathLock(member, outside);
    PathBuildable(n, member, outside, id, other);
    assert lock.order[1] == outside;
    OutsiderRefused(n, m, lock, manifest, outside);
  }

  // Whatever is accepted lists the packages of the lock file in its order, each under
  // its own name, version and URL, and has exactly the edges of the lock file.
  lemma AcceptedMatches(n: Naming, lock: Lock, manifest: Manifest, bom: Bom)
    requires ValidLock(lock) && Injective(n, lock, Root(n, manifest.version)) && Accepts(n, lock, manifest, bom)
    ensures |bom.components| == |SortedKeys(lock)|
    ensures forall i :: 0 <= i < |bom.components| ==>
              SortedKeys(lock)[i] in lock.packages
              && bom.components[i].ref == n.ref(SortedKeys(lock)[i])
              && Identified(n, SortedKeys(lock)[i], lock.packages[SortedKeys(lock)[i]], bom.components[i])
    ensures forall k :: k in lock.order ==>
              Dependency(n.ref(k), SortedRefs(n, Resolved(lock, k))) in bom.dependencies
    ensures forall d :: d in bom.dependencies ==>
              d == Dependency(Root(n, manifest.version), SortedRefs(n, Sourceless(lock.order)))
              || exists k :: k in lock.order && d == Dependency(n.ref(k), SortedRefs(n, Resolved(lock, k)))
  {
    AcceptedComponents(n, lock, bom.components);
    AcceptedEdges(n, lock, Root(n, manifest.version), bom.dependencies);
  }

  lemma AcceptedComponents(n: Naming, lock: Lock, components: seq<Component>)
    requires ValidLock(lock) && InjectiveOn(n, KeySet(lock)) && ComponentsHold(n, lock, components)
    ensures |components| == |SortedKeys(lock)|
    ensures forall i :: 0 <= i < |components| ==>
              SortedKeys(lock)[i] in lock.packages
              && components[i].ref == n.ref(SortedKeys(lock)[i])
              && Identified(n, SortedKeys(lock)[i], lock.packages[SortedKeys(lock)[i]], components[i])
  {
    var keys := SortedKeys(lock);
    SortMembers(lock.order, KeyLe);
    KeyByRefIs(n, lock.order, KeySet(lock));
    assert |components| == |ComponentRefs(components)| == |keys|;
    forall i | 0 <= i < |components|
      ensures keys[i] in lock.packages && components[i].ref == n.ref(keys[i])
              && Identified(n, keys[i], lock.packages[keys[i]], components[i])
    {
      assert keys[i] in keys;
      assert ComponentRefs(components)[i] == RefsOf(n, keys)[i];
      assert Known(n, lock, components[i]);
    }
  }

  lemma AcceptedEdges(n: Naming, lock: Lock, root: string, dependencies: seq<Dependency>)
    requires ValidLock(lock) && Injective(n, lock, root) && EdgesHold(n, lock, root, dependencies)
    ensures forall k :: k in lock.order ==>
              Dependency(n.ref(k), SortedRefs(n, Resolved(lock, k))) in dependencies
    ensures forall d :: d in dependencies ==>
              d == Dependency(root, SortedRefs(n, Sourceless(lock.order)))
              || exists k :: k in lock.order && d == Dependency(n.ref(k), SortedRefs(n, Resolved(lock, k)))
  {
    ActualIs(dependencies);
    EdgeMapIs(n, lock, lock.order, KeySet(lock));
    var actual := ActualEdges(dependencies);
    forall k | k in lock.order
      ensures Dependency(n.ref(k), SortedRefs(n, Resolved(lock, k))) in dependencies
    {
      assert n.ref(k) in actual;
      var d :| d in dependencies && d.ref == n.ref(k);
      assert d == Dependency(n.ref(k), actual[n.ref(k)]);
    }
    forall d | d in dependencies
      ensures d == Dependency(root, SortedRefs(n, Sourceless(lock.order)))
              || exists k :: k in lock.order && d == Dependency(n.ref(k), SortedRefs(n, Resolved(lock, k)))
    {
      assert d == Dependency(d.ref, actual[d.ref]);
      if d.ref != root {
        var k :| k in lock.order && n.ref(k) == d.ref;
        assert d == Dependency(n.ref(k), SortedRefs(n, Resolved(lock, k)));
      }
    }
  }

  // ----- Dependency coordinates -----

  predicate OpensAt(s: string, q: int) {
    0 <= q && q + 1 < |s| && s[q] == ' ' && s[q + 1] == '('
  }

  lemma {:induction false} LastParenIs(s: string, i: nat, p: nat)
    requires p < i <= |s| && OpensAt(s, p) && forall q :: p < q < i ==> !OpensAt(s, q)
    ensures LastParen(s, i) == Some(p)
  {
    if i - 1 != p {
      assert !OpensAt(s, i - 1);
      LastParenIs(s, i - 1, p);
    }
  }

  lemma {:induction false} LastParenNone(s: string, i: nat)
    requires i <= |s| && forall q :: 0 <= q < i ==> !OpensAt(s, q)
    ensures LastParen(s, i) == None
  {
    if i > 0 {
      assert !OpensAt(s, i - 1);
      LastParenNone(s, i - 1);
    }
  }

  function BaseText(c: Coordinate): string {
    c.name + if c.version.Some? then [' '] + c.version.value else ""
  }

  function CoordinateText(c: Coordinate): string {
    BaseText(c) + if c.source.Some? then [' ', '('] + c.source.value + [')'] else ""
  }

  // Names and versions are single words, a version opens no parenthesis, a source none inside.
  ghost predicate Plain(c: Coordinate) {
    && c.name != "" && ' ' !in c.name
    && (c.version.Some? ==> ' ' !in c.version.value && (c.version.value == "" || c.version.value[0] != '('))
    && (c.source.Some? ==> forall q :: 0 <= q < |c.source.value| ==> !OpensAt(c.source.value, q))
  }

  lemma BaseNeverOpens(c: Coordinate, q: int)
    requires Plain(c)
    ensures !OpensAt(BaseText(c), q)
  {
    var s := BaseText(c);
    assert forall x :: 0 <= x < |c.name| ==> s[x] == c.name[x] && s[x] != ' ';
    if c.version.Some? {
      assert forall x :: |c.name| < x < |s| ==> s[x] == c.version.value[x - |c.name| - 1] && s[x] != ' ';
    }
  }

  lemma BaseParts(c: Coordinate)
    requires Plain(c)
    ensures SplitOn(BaseText(c), ' ') == if c.version.Some? then [c.name, c.version.value] else [c.name]
  {
    SplitWhole(c.name, ' ');
    if c.version.Some? {
      SplitWhole(c.version.value, ' ');
      SplitFirst(c.name, c.version.value, ' ');
      assert BaseText(c) == c.name + [' '] + c.version.value;
    } else {
      assert BaseText(c) == c.name;
    }
  }

  // Whatever a lock file writes for a dependency is read back.
  lemma CoordinateReadBack(c: Coordinate)
    requires Plain(c)
    ensures ParseCoordinate(CoordinateText(c)) == Some(c)
  {
    var base, value := BaseText(c), CoordinateText(c);
    BaseParts(c);
    if c.source.Some? {
      var source := c.source.value;
      assert value == base + [' ', '('] + source + [')'];
      forall q | |base| < q < |value| ensures !OpensAt(value, q) {
        if q > |base| + 1 && q + 1 < |value| - 1 {
          assert !OpensAt(source, q - |base| - 2);
          assert value[q] == source[q - |base| - 2] && value[q + 1] == source[q - |base| - 1];
        }
      }
      LastParenIs(value, |value|, |base|);
      assert value[..|base|] == base && value[|base| + 2..|value| - 1] == source;
    } else {
      assert value == base;
      forall q | 0 <= q < |value| ensures !OpensAt(value, q) { BaseNeverOpens(c, q); }
      LastParenNone(value, |value|);
    }
  }
}
