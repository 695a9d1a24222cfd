/**
 The three ways profile inheritance is resolved: a plain recursion, one with a
 cache, and one over module sets.
 */
module ProfileResolvers {
  import opened Json
  import opened Seqs
  import opened ProfileChains

  datatype Profile = Profile(parent: Option<string>, modules: seq<string>)

  type Profiles = map<string, Profile>

  datatype Error = Cycle(stack: seq<string>) | UnknownParent(id: string) | UnknownProfile(id: string)

  // An empty `extends` counts as none.
  function Parent(p: Profile): Option<string> {
    if p.parent == Some("") then None else p.parent
  }

  function UpOf(profiles: Profiles): Up {
    map id | id in profiles :: Parent(profiles[id])
  }

  // The first occurrences, in order.
  function Unique(s: seq<string>): seq<string> {
    if s == [] then []
    else
      var front, last := Unique(s[..|s| - 1]), s[|s| - 1];
      if last in s[..|s| - 1] then front else front + [last]
  }

  lemma {:induction false} UniqueMembers(s: seq<string>)
    ensures forall x :: x in Unique(s) <==> x in s
  {
    if s != [] {
      UniqueMembers(s[..|s| - 1]);
      assert s == s[..|s| - 1] + [s[|s| - 1]];
    }
  }

  lemma {:induction false} UniqueDistinct(s: seq<string>)
    ensures forall i, j :: 0 <= i < j < |Unique(s)| ==> Unique(s)[i] != Unique(s)[j]
  {
    if s != [] {
      UniqueDistinct(s[..|s| - 1]);
      UniqueMembers(s[..|s| - 1]);
    }
  }

  // Duplicates inside a first part need not be removed before more is appended.
  lemma {:induction false} UniqueTwice(a: seq<string>, b: seq<string>)
    ensures Unique(Unique(a) + b) == Unique(a + b)
    ensures Unique(a) <= Unique(a + b)
    decreases |b|
  {
    if b == [] {
      assert Unique(a) + b == Unique(a) && a + b == a;
      UniqueFixed(a);
    } else {
      var front, last := b[..|b| - 1], b[|b| - 1];
      UniqueTwice(a, front);
      assert (Unique(a) + b)[..|Unique(a) + b| - 1] == Unique(a) + front;
      assert (a + b)[..|a + b| - 1] == a + front;
      UniqueMembers(a);
    }
  }

  lemma {:induction false} UniqueFixed(a: seq<string>)
    ensures Unique(Unique(a)) == Unique(a)
  {
    UniqueDistinct(a);
    DistinctFixed(Unique(a));
  }

  lemma {:induction false} DistinctFixed(s: seq<string>)
    requires forall i, j :: 0 <= i < j < |s| ==> s[i] != s[j]
    ensures Unique(s) == s
  {
    if s != [] {
      DistinctFixed(s[..|s| - 1]);
      assert s == s[..|s| - 1] + [s[|s| - 1]];
    }
  }

  // ----- What a profile resolves to -----

  ghost function Listed(profiles: Profiles, id: string, n: nat): seq<string>
    requires Grounded(UpOf(profiles), id, n)
    decreases n
  {
    var p := profiles[id];
    Unique((if Parent(p).Some? then Listed(profiles, Parent(p).value, n - 1) else []) + p.modules)
  }

  lemma {:induction false} ListedAlike(profiles: Profiles, id: string, n: nat, m: nat)
    requires Grounded(UpOf(profiles), id, n) && Grounded(UpOf(profiles), id, m)
    ensures Listed(profiles, id, n) == Listed(profiles, id, m)
    decreases n
  {
    if Parent(profiles[id]).Some? { ListedAlike(profiles, Parent(profiles[id]).value, n - 1, m - 1); }
  }

  ghost function Resolved(profiles: Profiles, id: string): seq<string>
    requires Ends(UpOf(profiles), id)
  {
    var n: nat :| Grounded(UpOf(profiles), id, n);
    Listed(profiles, id, n)
  }

  lemma ResolvedAt(profiles: Profiles, id: string, n: nat)
    requires Grounded(UpOf(profiles), id, n)
    ensures Ends(UpOf(profiles), id) && Resolved(profiles, id) == Listed(profiles, id, n)
  {
    var m: nat :| Grounded(UpOf(profiles), id, m) && Resolved(profiles, id) == Listed(profiles, id, m);
    ListedAlike(profiles, id, n, m);
  }

  lemma ResolvedRoot(profiles: Profiles, id: string)
    requires id in profiles && Parent(profiles[id]).None?
    ensures Ends(UpOf(profiles), id) && Resolved(profiles, id) == Unique(profiles[id].modules)
  {
    EndsRoot(UpOf(profiles), id);
    assert [] + profiles[id].modules == profiles[id].modules;
  }

  lemma ResolvedUp(profiles: Profiles, id: string)
    requires id in profiles && Parent(profiles[id]).Some? && Ends(UpOf(profiles), id)
    ensures Ends(UpOf(profiles), Parent(profiles[id]).value)
    ensures Resolved(profiles, id)
            == Unique(Resolved(profiles, Parent(profiles[id]).value) + profiles[id].modules)
  {
    var up, parent := UpOf(profiles), Parent(profiles[id]).value;
    EndsUp(up, id);
    var n: nat :| Grounded(up, id, n);
    ResolvedAt(profiles, id, n);
    ResolvedAt(profiles, parent, n - 1);
  }

  // A parent's list is a prefix of its child's.
  lemma ParentFirst(profiles: Profiles, id: string)
    requires id in profiles && Parent(profiles[id]).Some? && Ends(UpOf(profiles), id)
    ensures Ends(UpOf(profiles), Parent(profiles[id]).value)
    ensures Resolved(profiles, Parent(profiles[id]).value) <= Resolved(profiles, id)
  {
    ResolvedUp(profiles, id);
    var parent := Parent(profiles[id]).value;
    ResolvedDistinct(profiles, parent);
    DistinctFixed(Resolved(profiles, parent));
    UniqueTwice(Resolved(profiles, parent), profiles[id].modules);
  }

  lemma ResolvedDistinct(profiles: Profiles, id: string)
    requires Ends(UpOf(profiles), id)
    ensures var r := Resolved(profiles, id); forall i, j :: 0 <= i < j < |r| ==> r[i] != r[j]
  {
    var n: nat :| Grounded(UpOf(profiles), id, n);
    ResolvedAt(profiles, id, n);
    var p := profiles[id];
    UniqueDistinct((if Parent(p).Some? then Listed(profiles, Parent(p).value, n - 1) else []) + p.modules);
  }

  // ----- The plain recursion -----

  // The list, and the errors reported on the way.
  function Resolve(profiles: Profiles, id: string, stack: seq<string>): (seq<string>, seq<Error>)
    requires id in profiles
    decreases profiles.Keys - Elements(stack)
  {
    if id in stack then ([], [Cycle(stack + [id])])
    else
      var p := profiles[id];
      if Parent(p).None? then (Unique(p.modules), [])
      else if Parent(p).value !in profiles then (Unique(p.modules), [UnknownParent(id)])
      else
        assert Elements(stack + [id]) == Elements(stack) + {id};
        var (inherited, errors) := Resolve(profiles, Parent(p).value, stack + [id]);
        (Unique(inherited + p.modules), errors)
  }

  lemma {:induction false} ResolveExact(profiles: Profiles, id: string, stack: seq<string>)
    requires id in profiles && Chain(UpOf(profiles), stack + [id])
    ensures var (list, errors) := Resolve(profiles, id, stack);
            (errors == [] <==> Ends(UpOf(profiles), id))
            && (errors == [] ==> list == Resolved(profiles, id))
    decreases profiles.Keys - Elements(stack)
  {
    var up, p := UpOf(profiles), profiles[id];
    if id in stack {
      MetAgain(up, stack, id);
    } else if Parent(p).None? {
      ResolvedRoot(profiles, id);
    } else {
      EndsUp(up, id);
      if Parent(p).value in profiles {
        ChainSnoc(up, stack + [id], Parent(p).value);
        assert Elements(stack + [id]) == Elements(stack) + {id};
        ResolveExact(profiles, Parent(p).value, stack + [id]);
        if Ends(up, id) { ResolvedUp(profiles, id); }
      }
    }
  }

  // ----- The recursion with a cache -----

  class Resolver {
    const profiles: Profiles
    var cache: map<string, seq<string>>
    var errors: seq<Error>

    constructor (profiles: Profiles)
      ensures this.profiles == profiles && Valid() && errors == []
    {
      this.profiles := profiles;
      cache, errors := map[], [];
    }

    // A cached list is right wherever there is a right one, and while nothing was
    // reported there always is.
    ghost predicate Valid()
      reads this
    {
      forall id :: id in cache ==>
        && (errors == [] ==> Ends(UpOf(profiles), id))
        && (Ends(UpOf(profiles), id) ==> cache[id] == Resolved(profiles, id))
    }

    method Resolve(id: string, stack: seq<string>) returns (list: seq<string>)
      requires Valid() && Chain(UpOf(profiles), stack + [id])
      modifies this
      ensures Valid() && old(errors) <= errors
      ensures errors == [] ==> Ends(UpOf(profiles), id)
      ensures Ends(UpOf(profiles), id) ==> list == Resolved(profiles, id) && errors == old(errors)
      decreases profiles.Keys - Elements(stack)
    {
      var up := UpOf(profiles);
      if id in cache { return cache[id]; }
      if id in stack {
        MetAgain(up, stack, id);
        errors := errors + [Cycle(stack + [id])];
        return [];
      }
      if id !in profiles {
        errors := errors + [UnknownProfile(id)];
        return [];
      }
      var p := profiles[id];
      var resolved := [];
      if Parent(p).Some? {
        EndsUp(up, id);
        if Parent(p).value !in profiles {
          errors := errors + [UnknownParent(id)];
        } else {
          ChainSnoc(up, stack + [id], Parent(p).value);
          assert Elements(stack + [id]) == Elements(stack) + {id};
          resolved := Resolve(Parent(p).value, stack + [id]);
        }
        if Ends(up, id) { ResolvedUp(profiles, id); }
      } else {
        ResolvedRoot(profiles, id);
      }
      list := Unique(resolved + p.modules);
      assert [] + p.modules == p.modules;
      cache := cache[id := list];
    }
  }

  // Whatever the order of the calls, errors appear exactly when some chain has no
  // end, and every profile whose chain ends gets the list of the plain recursion.
  method ResolveAll(profiles: Profiles, calls: seq<string>) returns (lists: seq<seq<string>>, errors: seq<Error>)
    ensures |lists| == |calls|
    ensures errors == [] <==> forall id :: id in calls ==> Ends(UpOf(profiles), id)
    ensures forall i :: 0 <= i < |calls| && Ends(UpOf(profiles), calls[i]) ==>
              lists[i] == Resolved(profiles, calls[i]) == Resolve(profiles, calls[i], []).0
  {
    var resolver := new Resolver(profiles);
    lists := [];
    for i := 0 to |calls|
      invariant resolver.profiles == profiles && resolver.Valid() && |lists| == i
      invariant resolver.errors == [] <==> forall id :: id in calls[..i] ==> Ends(UpOf(profiles), id)
      invariant forall j :: 0 <= j < i && Ends(UpOf(profiles), calls[j]) ==>
                  lists[j] == Resolved(profiles, calls[j]) == Resolve(profiles, calls[j], []).0
    {
      var list := resolver.Resolve(calls[i], []);
      if Ends(UpOf(profiles), calls[i]) { ResolveExact(profiles, calls[i], []); }
      lists := lists + [list];
      assert calls[..i + 1] == calls[..i] + [calls[i]];
    }
    assert calls[..|calls|] == calls;
    errors := resolver.errors;
  }

  // ----- The recursion over sets -----

  type ModuleSets = map<string, (Option<string>, set<string>)>

  function SetsOf(profiles: Profiles): ModuleSets {
    map id | id in profiles :: (profiles[id].parent, Elements(profiles[id].modules))
  }

  function SetsUp(sets: ModuleSets): Up {
    map id | id in sets :: sets[id].0
  }

  // The union over the chain.
  ghost function Inherited(sets: ModuleSets, id: string, n: nat): set<string>
    requires Grounded(SetsUp(sets), id, n)
    decreases n
  {
    (if sets[id].0.Some? then Inherited(sets, sets[id].0.value, n - 1) else {}) + sets[id].1
  }

  // All the modules along a chain that ends.
  ghost function Gathered(sets: ModuleSets, id: string): set<string>
    requires Ends(SetsUp(sets), id)
  {
    var n: nat :| Grounded(SetsUp(sets), id, n);
    Inherited(sets, id, n)
  }

  lemma {:induction false} InheritedAlike(sets: ModuleSets, id: string, n: nat, m: nat)
    requires Grounded(SetsUp(sets), id, n) && Grounded(SetsUp(sets), id, m)
    ensures Inherited(sets, id, n) == Inherited(sets, id, m)
    decreases n
  {
    if sets[id].0.Some? { InheritedAlike(sets, sets[id].0.value, n - 1, m - 1); }
  }

  lemma GatheredIs(sets: ModuleSets, id: string, n: nat)
    requires Grounded(SetsUp(sets), id, n)
    ensures Ends(SetsUp(sets), id) && Gathered(sets, id) == Inherited(sets, id, n)
  {
    var m: nat :| Grounded(SetsUp(sets), id, m) && Gathered(sets, id) == Inherited(sets, id, m);
    InheritedAlike(sets, id, n, m);
  }

  lemma GatheredStep(sets: ModuleSets, id: string)
    requires id in sets && sets[id].0.Some?
    ensures Ends(SetsUp(sets), id) <==> Ends(SetsUp(sets), sets[id].0.value)
    ensures Ends(SetsUp(sets), id) ==> Gathered(sets, id) == Gathered(sets, sets[id].0.value) + sets[id].1
  {
    var parent := sets[id].0.value;
    EndsUp(SetsUp(sets), id);
    if Ends(SetsUp(sets), id) {
      var n: nat :| Grounded(SetsUp(sets), parent, n);
      GatheredIs(sets, parent, n);
      GatheredIs(sets, id, n + 1);
    }
  }

  lemma GatheredRoot(sets: ModuleSets, id: string)
    requires id in sets && sets[id].0.None?
    ensures Ends(SetsUp(sets), id) && Gathered(sets, id) == sets[id].1
  {
    GatheredIs(sets, id, 0);
  }

  class Visiting {
    var ids: set<string>

    constructor ()
      ensures ids == {}
    {
      ids := {};
    }

    method ResolveModules(id: string, sets: ModuleSets, ghost stack: seq<string>) returns (r: Option<set<string>>)
      requires ids == Elements(stack) && Chain(SetsUp(sets), stack + [id])
      modifies this
      ensures r.Some? <==> Ends(SetsUp(sets), id)
      ensures r.Some? ==> ids == old(ids)
      ensures r.Some? ==> r.value == Gathered(sets, id)
      decreases sets.Keys - ids
    {
      var up := SetsUp(sets);
      if id in ids {
        MetAgain(up, stack, id);
        return None;
      }
      ids := ids + {id};
      if id !in sets { return None; }
      var (parent, own) := sets[id];
      var selected := {};
      if parent.Some? {
        GatheredStep(sets, id);
        ChainSnoc(up, stack + [id], parent.value);
        var inherited := ResolveModules(parent.value, sets, stack + [id]);
        if inherited.None? { return None; }
        selected := inherited.value;
      } else {
        GatheredRoot(sets, id);
      }
      selected := selected + own;
      ids := ids - {id};
      return Some(selected);
    }
  }

  // ----- The set resolver and the list resolvers -----

  // The chain ends without an `extends` that is an empty string, which the list resolvers take
  // for none and the set resolver for the name of a profile.
  ghost predicate NamedTo(profiles: Profiles, id: string, n: nat)
    decreases n
  {
    && id in profiles && profiles[id].parent != Some("")
    && (profiles[id].parent.None? || (n > 0 && NamedTo(profiles, profiles[id].parent.value, n - 1)))
  }

  ghost predicate Named(profiles: Profiles, id: string) {
    exists n: nat :: NamedTo(profiles, id, n)
  }

  lemma {:induction false} SetsAgree(profiles: Profiles, id: string, n: nat)
    requires NamedTo(profiles, id, n)
    ensures Grounded(UpOf(profiles), id, n) && Grounded(SetsUp(SetsOf(profiles)), id, n)
    ensures Elements(Listed(profiles, id, n)) == Inherited(SetsOf(profiles), id, n)
    decreases n
  {
    var p := profiles[id];
    if p.parent.Some? { SetsAgree(profiles, p.parent.value, n - 1); }
    var above := if Parent(p).Some? then Listed(profiles, Parent(p).value, n - 1) else [];
    UniqueMembers(above + p.modules);
  }

  // Where sets can be gathered lists can be.
  lemma {:induction false} SetsEnd(profiles: Profiles, id: string, n: nat)
    requires Grounded(SetsUp(SetsOf(profiles)), id, n)
    ensures Grounded(UpOf(profiles), id, n)
    decreases n
  {
    if Parent(profiles[id]).Some? { SetsEnd(profiles, Parent(profiles[id]).value, n - 1); }
  }

  // Past an empty `extends` the set resolver goes on with the profile of that name.
  lemma {:induction false} SetsGoOn(profiles: Profiles, id: string, n: nat)
    requires Grounded(UpOf(profiles), id, n) && !NamedTo(profiles, id, n)
    ensures Ends(SetsUp(SetsOf(profiles)), id) <==> Ends(SetsUp(SetsOf(profiles)), "")
    ensures Ends(SetsUp(SetsOf(profiles)), id) ==>
              Gathered(SetsOf(profiles), id) == Elements(Listed(profiles, id, n)) + Gathered(SetsOf(profiles), "")
    decreases n
  {
    var p := profiles[id];
    GatheredStep(SetsOf(profiles), id);
    if Parent(p).Some? { SetsGoOn(profiles, Parent(p).value, n - 1); }
    var above := if Parent(p).Some? then Listed(profiles, Parent(p).value, n - 1) else [];
    UniqueMembers(above + p.modules);
  }

  // Sets and lists are both resolved, to the same modules.
  ghost predicate Agree(profiles: Profiles, id: string) {
    && Ends(UpOf(profiles), id) && Ends(SetsUp(SetsOf(profiles)), id)
    && Gathered(SetsOf(profiles), id) == Elements(Resolved(profiles, id))
  }

  // What a profile named by the empty string adds is there already.
  ghost predicate EmptyAdds(profiles: Profiles, id: string)
    requires Ends(UpOf(profiles), id)
  {
    && Ends(SetsUp(SetsOf(profiles)), "")
    && Gathered(SetsOf(profiles), "") <= Elements(Resolved(profiles, id))
  }

  lemma SetsAgreeExactly(profiles: Profiles, id: string)
    ensures Ends(SetsUp(SetsOf(profiles)), id) <==>
            Ends(UpOf(profiles), id) && (Named(profiles, id) || Ends(SetsUp(SetsOf(profiles)), ""))
    ensures Agree(profiles, id) <==>
            Ends(UpOf(profiles), id) && (Named(profiles, id) || EmptyAdds(profiles, id))
  {
    var sets := SetsOf(profiles);
    if Ends(SetsUp(sets), id) {
      var n: nat :| Grounded(SetsUp(sets), id, n);
      SetsEnd(profiles, id, n);
    }
    if Named(profiles, id) {
      var n: nat :| NamedTo(profiles, id, n);
      SetsAgree(profiles, id, n);
      GatheredIs(sets, id, n);
      ResolvedAt(profiles, id, n);
    } else if Ends(UpOf(profiles), id) {
      var n: nat :| Grounded(UpOf(profiles), id, n);
      SetsGoOn(profiles, id, n);
      ResolvedAt(profiles, id, n);
    }
  }

  // Without a profile of that name, they agree exactly on the chains without an empty `extends`.
  lemma SetsAgreeNamed(profiles: Profiles, id: string)
    requires "" !in profiles
    ensures Ends(SetsUp(SetsOf(profiles)), id) <==> Named(profiles, id)
    ensures Agree(profiles, id) <==> Named(profiles, id)
  {
    SetsAgreeExactly(profiles, id);
    if Named(profiles, id) {
      var n: nat :| NamedTo(profiles, id, n);
      SetsAgree(profiles, id, n);
    }
  }

  // A profile that extends the empty string, and nothing else: a list, and no set.
  lemma EmptyExtends(id: string, modules: seq<string>)
    requires id != ""
    ensures var profiles := map[id := Profile(Some(""), modules)];
            Ends(UpOf(profiles), id) && !Ends(SetsUp(SetsOf(profiles)), id)
  {
    var profiles := map[id := Profile(Some(""), modules)];
    EndsRoot(UpOf(profiles), id);
    SetsAgreeNamed(profiles, id);
  }

  // The list keeps the order in which modules first come.
  lemma {:induction false} UniqueInOrder(s: seq<string>, i: nat, j: nat) returns (p: nat, q: nat)
    requires i < j < |Unique(s)|
    ensures p < q < |s| && s[p] == Unique(s)[i] && s[q] == Unique(s)[j] && s[p] !in s[..p] && s[q] !in s[..q]
  {
    var front, last := s[..|s| - 1], s[|s| - 1];
    if j < |Unique(front)| {
      p, q := UniqueInOrder(front, i, j);
      assert s[..p] == front[..p] && s[..q] == front[..q];
    } else {
      q := |s| - 1;
      p := FirstIn(front, Unique(front)[i]);
      assert s[..p] == front[..p];
    }
  }

  lemma {:induction false} FirstIn(s: seq<string>, x: string) returns (p: nat)
    requires x in Unique(s)
    ensures p < |s| && s[p] == x && x !in s[..p]
  {
    var front, last := s[..|s| - 1], s[|s| - 1];
    if x in Unique(front) {
      p := FirstIn(front, x);
      assert s[..p] == front[..p];
    } else {
      UniqueMembers(front);
      p := |s| - 1;
    }
  }
}
