/**
 The order in which extension merge plans are applied to the base bundle.
 */
module ExtensionPlans {
  import opened Json
  import opened Sorting
  import opened Keyed
  import opened GreedyOrder

  datatype Requirement = Requirement(id: string, version: string)

  datatype Plan = Plan(id: string, version: string, requirements: seq<Requirement>)

  datatype Loaded =
    | Ordered(plans: seq<Plan>)
    | Duplicate(id: string)
    | Mismatch(plan: Plan, requirement: Requirement)
    | Unorderable(pending: seq<Plan>)

  function IdOf(p: Plan): string {
    p.id
  }

  function RequiredIds(p: Plan): set<string> {
    set i | 0 <= i < |p.requirements| :: p.requirements[i].id
  }

  function PlanNeeds(): Needs<Plan> {
    Needs((p: Plan) => p.id, (p: Plan) => RequiredIds(p))
  }

  predicate ById(a: Plan, b: Plan) {
    StrLess(a.id, b.id)
  }

  predicate ByIdLe(a: Plan, b: Plan) {
    StrLe(a.id, b.id)
  }

  // The base bundle or an earlier plan is there, at exactly the required version.
  ghost predicate Provides(base: Requirement, earlier: seq<Plan>, q: Requirement) {
    q == base || exists p :: p in earlier && p.id == q.id && p.version == q.version
  }

  ghost predicate InOrder(base: Requirement, order: seq<Plan>) {
    forall i, q :: 0 <= i < |order| && q in order[i].requirements ==> Provides(base, order[..i], q)
  }

  // An order of all the plans in which every requirement is met by what comes before.
  ghost predicate PlanOrder(base: Requirement, plans: seq<Plan>, order: seq<Plan>) {
    multiset(order) == multiset(plans) && InOrder(base, order)
  }

  // No plan passes itself off as the base bundle at another version.
  ghost predicate KeepsBase(base: Requirement, plans: seq<Plan>) {
    forall p :: p in plans && p.id == base.id ==> p.version == base.version
  }

  ghost predicate Repeats(plans: seq<Plan>, id: string) {
    exists i, j :: 0 <= i < j < |plans| && plans[i].id == id && plans[j].id == id
  }

  // One of the plans needs another version of something that is there.
  ghost predicate Clashes(base: Requirement, plans: seq<Plan>, p: Plan, q: Requirement) {
    && p in plans && q in p.requirements
    && exists found :: Provides(base, plans, found) && found.id == q.id && found != q
  }

  // Each of the pending plans waits for an id that the base bundle is not and that only a
  // pending plan could have.
  ghost predicate Waits(base: Requirement, plans: seq<Plan>, pending: seq<Plan>, p: Plan) {
    p in plans && exists id :: id in RequiredIds(p) && id != base.id && OnlyIn(plans, pending, id)
  }

  ghost predicate OnlyIn(plans: seq<Plan>, pending: seq<Plan>, id: string) {
    forall p :: p in plans && p.id == id ==> p in pending
  }

  ghost predicate Stuck(base: Requirement, plans: seq<Plan>, pending: seq<Plan>) {
    pending != [] && forall p :: p in pending ==> Waits(base, plans, pending, p)
  }

  // ----- Which plans can be loaded -----

  // Every requirement names the version of the base bundle or of the plan it asks for.
  ghost predicate Versioned(base: Requirement, plans: seq<Plan>, q: Requirement) {
    if q.id == base.id then q.version == base.version
    else forall p :: p in plans && p.id == q.id ==> p.version == q.version
  }

  ghost predicate BaseVersioned(base: Requirement, plans: seq<Plan>) {
    forall p, q :: p in plans && q in p.requirements && q.id == base.id ==> q.version == base.version
  }

  ghost predicate AllVersioned(base: Requirement, plans: seq<Plan>) {
    forall p, q :: p in plans && q in p.requirements ==> Versioned(base, plans, q)
  }

  // Behind a plan that takes the base bundle's id at another version, nothing asks for that id.
  ghost predicate BaseFirst(base: Requirement, order: seq<Plan>) {
    forall i, j :: 0 <= i < j < |order| && order[i].id == base.id && order[i].version != base.version ==>
      base.id !in RequiredIds(order[j])
  }

  // The exact condition, for plans in ascending order of their ids.
  ghost predicate Loadable(base: Requirement, sorted: seq<Plan>) {
    var order := Greedy(PlanNeeds(), {base.id}, sorted);
    order.Some? && AllVersioned(base, sorted) && BaseFirst(base, order.value)
  }

  // What a failure names is the reason for it.
  ghost predicate Explained(base: Requirement, plans: seq<Plan>, r: Loaded) {
    match r
    case Ordered(_) => true
    case Duplicate(id) => Repeats(plans, id)
    case Mismatch(p, q) => Clashes(base, plans, p, q)
    case Unorderable(pending) => Stuck(base, plans, pending)
  }

  // ----- Requirements met at their versions are met by id -----

  lemma ProvidesId(base: Requirement, earlier: seq<Plan>, q: Requirement)
    requires Provides(base, earlier, q)
    ensures q.id in {base.id} + Keys(IdOf, earlier)
  {
    if q != base {
      var p :| p in earlier && p.id == q.id && p.version == q.version;
      KeyMember(IdOf, earlier, p);
    }
  }

  lemma {:induction false} InOrderFits(base: Requirement, order: seq<Plan>, k: nat)
    requires InOrder(base, order) && k <= |order|
    ensures Fits(PlanNeeds(), {base.id} + Keys(IdOf, order[..k]), order[k..])
    decreases |order| - k
  {
    if k < |order| {
      InOrderFits(base, order, k + 1);
      assert order[..k + 1] == order[..k] + [order[k]];
      KeysSnoc(IdOf, order[..k], order[k]);
      forall x | x in RequiredIds(order[k]) ensures x in {base.id} + Keys(IdOf, order[..k]) {
        var i :| 0 <= i < |order[k].requirements| && order[k].requirements[i].id == x;
        ProvidesId(base, order[..k], order[k].requirements[i]);
      }
      assert order[k..][1..] == order[k + 1..];
      assert {base.id} + Keys(IdOf, order[..k + 1]) == {base.id} + Keys(IdOf, order[..k]) + {order[k].id};
    }
  }

  lemma PlanOrderFits(base: Requirement, plans: seq<Plan>, order: seq<Plan>)
    requires PlanOrder(base, plans, order)
    ensures Fits(PlanNeeds(), {base.id}, order) && multiset(order) == multiset(plans)
  {
    InOrderFits(base, order, 0);
    assert order[..0] == [] && order[0..] == order && Keys(IdOf, []) == {};
    assert {base.id} + {} == {base.id};
  }

  // ----- A version that is there and differs rules every order out -----

  lemma OneVersion(base: Requirement, plans: seq<Plan>, q: Requirement, r: Requirement)
    requires DistinctBy(IdOf, plans) && KeepsBase(base, plans)
    requires Provides(base, plans, q) && Provides(base, plans, r) && q.id == r.id
    ensures q == r
  {
  }

  lemma ProvidesMore(base: Requirement, few: seq<Plan>, many: seq<Plan>, q: Requirement)
    requires Provides(base, few, q) && forall p :: p in few ==> p in many
    ensures Provides(base, many, q)
  {
  }

  lemma SameMembers(a: seq<Plan>, b: seq<Plan>)
    requires multiset(a) == multiset(b)
    ensures forall p :: p in a <==> p in b
  {
    forall p ensures p in a <==> p in b {
      assert p in multiset(a) <==> p in multiset(b);
    }
  }

  lemma MismatchBlocks(base: Requirement, plans: seq<Plan>, p: Plan, q: Requirement, found: Requirement)
    requires DistinctBy(IdOf, plans) && KeepsBase(base, plans)
    requires p in plans && q in p.requirements
    requires Provides(base, plans, found) && found.id == q.id && found != q
    ensures forall order :: !PlanOrder(base, plans, order)
  {
    forall order ensures !PlanOrder(base, plans, order) {
      if PlanOrder(base, plans, order) {
        SameMembers(order, plans);
        var i :| 0 <= i < |order| && order[i] == p;
        assert Provides(base, order[..i], q);
        ProvidesMore(base, order[..i], plans, q);
        OneVersion(base, plans, q, found);
      }
    }
  }

  // ----- Reading the plans -----

  predicate HasId(plans: seq<Plan>, id: string) {
    exists p :: p in plans && p.id == id
  }

  // The ordered map of the plans by id: strictly ascending, one plan an id.
  method Collect(read: seq<Plan>) returns (duplicate: Option<string>, pending: seq<Plan>)
    ensures duplicate.None? <==> DistinctBy(IdOf, read)
    ensures duplicate.Some? ==> Repeats(read, duplicate.value)
    ensures duplicate.None? ==> multiset(pending) == multiset(read) && Ascending(ById, pending)
  {
    pending := [];
    for i := 0 to |read|
      invariant DistinctBy(IdOf, read[..i])
      invariant multiset(pending) == multiset(read[..i]) && Ascending(ById, pending)
    {
      CollectNext(read, i, pending);
      if HasId(pending, read[i].id) { return Some(read[i].id), []; }
      pending := Insert(read[i], pending, ByIdLe);
    }
    assert read[..|read|] == read;
    duplicate := None;
  }

  lemma CollectNext(read: seq<Plan>, i: nat, pending: seq<Plan>)
    requires i < |read| && DistinctBy(IdOf, read[..i])
    requires multiset(pending) == multiset(read[..i]) && Ascending(ById, pending)
    ensures HasId(pending, read[i].id) ==> Repeats(read, read[i].id) && !DistinctBy(IdOf, read)
    ensures !HasId(pending, read[i].id) ==>
              var more := Insert(read[i], pending, ByIdLe);
              DistinctBy(IdOf, read[..i + 1]) && multiset(more) == multiset(read[..i + 1]) && Ascending(ById, more)
  {
    SameMembers(pending, read[..i]);
    assert read[..i + 1] == read[..i] + [read[i]];
    if HasId(pending, read[i].id) {
      assert exists j :: 0 <= j < i && read[j].id == read[i].id;
    } else {
      assert forall j :: 0 <= j < i ==> read[j] in read[..i];
      InsertAscending(read[i], pending);
      InsertMultiset(read[i], pending, ByIdLe);
    }
  }

  lemma {:induction false} InsertAscending(p: Plan, pending: seq<Plan>)
    requires Ascending(ById, pending) && !HasId(pending, p.id)
    ensures Ascending(ById, Insert(p, pending, ByIdLe))
  {
    if pending != [] {
      assert pending[0] in pending;
      StrTrichotomy(p.id, pending[0].id);
      if StrLess(p.id, pending[0].id) {
        AscendingFirst(p, pending);
      } else {
        assert !HasId(pending[1..], p.id);
        assert Ascending(ById, pending[1..]);
        InsertAscending(p, pending[1..]);
        var rest := Insert(p, pending[1..], ByIdLe);
        InsertMembers(p, pending[1..], ByIdLe);
        forall x | x in rest ensures StrLess(pending[0].id, x.id) {
          if x != p {
            var j :| 0 <= j < |pending[1..]| && pending[1..][j] == x;
            assert ById(pending[0], pending[j + 1]);
          }
        }
        if ByIdLe(p, pending[0]) { StrAsymmetric(p.id, pending[0].id); }
        AscendingBefore(pending[0], rest);
      }
    }
  }

  lemma StrAsymmetric(a: string, b: string)
    requires StrLess(b, a)
    ensures !StrLe(a, b)
  {
    StrIrreflexive(a);
    if StrLess(a, b) { StrTransitive(a, b, a); }
  }

  lemma AscendingBefore(p: Plan, rest: seq<Plan>)
    requires Ascending(ById, rest) && forall x :: x in rest ==> ById(p, x)
    ensures Ascending(ById, [p] + rest)
  {
  }

  lemma AscendingFirst(p: Plan, pending: seq<Plan>)
    requires Ascending(ById, pending) && pending != [] && ById(p, pending[0])
    ensures Ascending(ById, [p] + pending)
  {
    forall x | x in pending ensures ById(p, x) {
      var j :| 0 <= j < |pending| && pending[j] == x;
      if j > 0 {
        assert ById(pending[0], pending[j]);
        StrTransitive(p.id, pending[0].id, x.id);
      }
    }
    AscendingBefore(p, pending);
  }

  // ----- Ordering them -----

  ghost predicate Agrees(available: map<string, string>, p: Plan) {
    forall q :: q in p.requirements && q.id in available ==> available[q.id] == q.version
  }

  method CheckVersions(pending: seq<Plan>, available: map<string, string>)
    returns (bad: Option<(Plan, Requirement)>)
    ensures bad.None? ==> forall p :: p in pending ==> Agrees(available, p)
    ensures bad.Some? ==> var (p, q) := bad.value;
              p in pending && q in p.requirements && q.id in available && available[q.id] != q.version
  {
    for i := 0 to |pending|
      invariant forall p :: p in pending[..i] ==> Agrees(available, p)
    {
      var p := pending[i];
      for j := 0 to |p.requirements|
        invariant forall q :: q in p.requirements[..j] && q.id in available ==> available[q.id] == q.version
      {
        var q := p.requirements[j];
        if q.id in available && available[q.id] != q.version {
          return Some((p, q));
        }
      }
      assert p.requirements[..|p.requirements|] == p.requirements;
    }
    assert pending[..|pending|] == pending;
    bad := None;
  }

  // The versions that are there: the base bundle's and those of the plans already ordered.
  ghost predicate Available(base: Requirement, ordered: seq<Plan>, available: map<string, string>) {
    && available.Keys == {base.id} + Keys(IdOf, ordered)
    && forall id :: id in available ==> Provides(base, ordered, Requirement(id, available[id]))
  }

  lemma AvailableSnoc(base: Requirement, ordered: seq<Plan>, available: map<string, string>, p: Plan)
    requires Available(base, ordered, available)
    ensures Available(base, ordered + [p], available[p.id := p.version])
  {
    KeysSnoc(IdOf, ordered, p);
    var more := available[p.id := p.version];
    assert more.Keys == {base.id} + Keys(IdOf, ordered + [p]);
    assert p in ordered + [p];
    forall id | id in more ensures Provides(base, ordered + [p], Requirement(id, more[id])) {
      if id != p.id { ProvidesMore(base, ordered, ordered + [p], Requirement(id, available[id])); }
    }
  }

  lemma InOrderSnoc(base: Requirement, ordered: seq<Plan>, available: map<string, string>, p: Plan)
    requires InOrder(base, ordered) && Available(base, ordered, available)
    requires RequiredIds(p) <= available.Keys && Agrees(available, p)
    ensures InOrder(base, ordered + [p])
  {
    var more := ordered + [p];
    forall i, q | 0 <= i < |more| && q in more[i].requirements ensures Provides(base, more[..i], q) {
      assert more[..i] == ordered[..i];
      if i == |ordered| {
        assert ordered[..i] == ordered;
        assert q.id in RequiredIds(p);
        assert q == Requirement(q.id, available[q.id]);
      }
    }
  }

  method Order(base: Requirement, sorted: seq<Plan>) returns (r: Loaded)
    requires Ascending(ById, sorted)
    ensures r.Ordered? || r.Mismatch? || r.Unorderable?
    ensures r.Ordered? ==> PlanOrder(base, sorted, r.plans)
    ensures r.Ordered? ==> Greedy(PlanNeeds(), {base.id}, sorted) == Some(r.plans)
    ensures r.Unorderable? ==> Greedy(PlanNeeds(), {base.id}, sorted) == None
    ensures r.Mismatch? && KeepsBase(base, sorted) ==> forall order :: !PlanOrder(base, sorted, order)
    ensures Explained(base, sorted, r)
    ensures r.Ordered? <==> Loadable(base, sorted)
  {
    var pending, ordered := sorted, [];
    var available := map[base.id := base.version];
    HalfwayStart(base, sorted);
    while pending != []
      invariant Halfway(base, sorted, ordered, pending, available)
      decreases |pending|
    {
      var bad := CheckVersions(pending, available);
      if bad.Some? {
        var (p, q) := bad.value;
        MismatchFound(base, sorted, ordered, pending, available, p, q);
        MismatchNotLoadable(base, sorted, ordered, pending, available, p, q);
        return Mismatch(p, q);
      }
      var next := FirstReady(PlanNeeds(), available.Keys, pending);
      if next.None? {
        NoneReady(base, sorted, ordered, pending, available);
        return Unorderable(pending);
      }
      var k := next.value;
      var plan := pending[k];
      HalfwayNext(base, sorted, ordered, pending, available, k);
      pending := Remove(pending, k);
      available := available[plan.id := plan.version];
      ordered := ordered + [plan];
    }
    HalfwayDone(base, sorted, ordered, available);
    return Ordered(ordered);
  }

  ghost predicate Halfway(base: Requirement, sorted: seq<Plan>, ordered: seq<Plan>, pending: seq<Plan>,
                          available: map<string, string>)
  {
    && Ascending(ById, sorted) && multiset(ordered) + multiset(pending) == multiset(sorted)
    && InOrder(base, ordered) && Available(base, ordered, available)
    && Latest(base, sorted, ordered, available) && BaseFirst(base, ordered)
    && Greedy(PlanNeeds(), {base.id}, sorted) == Prepend(ordered, Greedy(PlanNeeds(), available.Keys, pending))
  }

  lemma HalfwayStart(base: Requirement, sorted: seq<Plan>)
    requires Ascending(ById, sorted)
    ensures Halfway(base, sorted, [], sorted, map[base.id := base.version])
  {
    var available := map[base.id := base.version];
    assert available.Keys == {base.id} + Keys(IdOf, []) == {base.id};
    PrependNothing(Greedy(PlanNeeds(), {base.id}, sorted));
  }

  lemma HalfwayNext(base: Requirement, sorted: seq<Plan>, ordered: seq<Plan>, pending: seq<Plan>,
                    available: map<string, string>, k: nat)
    requires Halfway(base, sorted, ordered, pending, available)
    requires FirstReady(PlanNeeds(), available.Keys, pending) == Some(k)
    requires forall p :: p in pending ==> Agrees(available, p)
    ensures Halfway(base, sorted, ordered + [pending[k]], Remove(pending, k),
                    available[pending[k].id := pending[k].version])
  {
    var plan := pending[k];
    GreedyStep(PlanNeeds(), available.Keys, pending, ordered, k);
    RemoveMultiset(pending, k);
    InOrderSnoc(base, ordered, available, plan);
    AvailableSnoc(base, ordered, available, plan);
    LatestSnoc(base, sorted, ordered, pending, available, k);
    assert available[plan.id := plan.version].Keys == available.Keys + {plan.id};
  }

  lemma HalfwayDone(base: Requirement, sorted: seq<Plan>, ordered: seq<Plan>, available: map<string, string>)
    requires Halfway(base, sorted, ordered, [], available)
    ensures PlanOrder(base, sorted, ordered) && Greedy(PlanNeeds(), {base.id}, sorted) == Some(ordered)
    ensures Loadable(base, sorted)
  {
    assert ordered + [] == ordered;
    AscendingDistinct(sorted);
    OrderedLoadable(base, sorted, ordered, available);
  }

  // Half-way: what is available is what was ordered last, and once something was ordered
  // every plan asks for the base bundle at its own version.
  ghost predicate Latest(base: Requirement, sorted: seq<Plan>, ordered: seq<Plan>, available: map<string, string>) {
    && (forall p :: p in ordered ==> p.id in available && available[p.id] == p.version)
    && (ordered == [] ==> available == map[base.id := base.version])
    && (ordered != [] ==> BaseVersioned(base, sorted))
  }

  lemma LatestSnoc(base: Requirement, sorted: seq<Plan>, ordered: seq<Plan>, pending: seq<Plan>,
                   available: map<string, string>, k: nat)
    requires k < |pending| && Ascending(ById, sorted) && multiset(ordered) + multiset(pending) == multiset(sorted)
    requires Latest(base, sorted, ordered, available) && BaseFirst(base, ordered)
    requires forall p :: p in pending ==> Agrees(available, p)
    ensures Latest(base, sorted, ordered + [pending[k]], available[pending[k].id := pending[k].version])
    ensures BaseFirst(base, ordered + [pending[k]])
  {
    var plan := pending[k];
    AscendingDistinct(sorted);
    Parts(sorted, ordered, pending);
    if ordered == [] {
      forall p, q | p in sorted && q in p.requirements && q.id == base.id ensures q.version == base.version {
        assert p in pending && Agrees(available, p);
      }
    }
    forall p | p in ordered ensures p.id != plan.id { OtherIds(sorted, ordered, pending, k, p); }
    forall x | x in ordered && x.id == base.id && x.version != base.version ensures base.id !in RequiredIds(plan) {
      assert plan in pending && plan in sorted;
      NoneAsks(base, available, x, plan);
    }
  }

  // A plan that agrees with a changed base version does not ask for it at the old one.
  lemma NoneAsks(base: Requirement, available: map<string, string>, x: Plan, plan: Plan)
    requires base.id in available && available[base.id] == x.version != base.version && Agrees(available, plan)
    requires forall q :: q in plan.requirements && q.id == base.id ==> q.version == base.version
    ensures base.id !in RequiredIds(plan)
  {
    forall m | 0 <= m < |plan.requirements| ensures plan.requirements[m].id != base.id {
      assert plan.requirements[m] in plan.requirements;
    }
  }

  lemma OtherIds(sorted: seq<Plan>, ordered: seq<Plan>, pending: seq<Plan>, k: nat, p: Plan)
    requires k < |pending| && DistinctBy(IdOf, sorted) && multiset(ordered) + multiset(pending) == multiset(sorted)
    requires p in ordered
    ensures p.id != pending[k].id
  {
    var all := ordered + pending;
    assert multiset(all) == multiset(sorted);
    KeysPermuted(IdOf, all, sorted);
    var i :| 0 <= i < |ordered| && ordered[i] == p;
    assert all[i] == p && all[|ordered| + k] == pending[k];
    assert IdOf(all[i]) != IdOf(all[|ordered| + k]);
  }

  lemma OrderedLoadable(base: Requirement, sorted: seq<Plan>, ordered: seq<Plan>, available: map<string, string>)
    requires multiset(ordered) == multiset(sorted) && DistinctBy(IdOf, sorted)
    requires InOrder(base, ordered) && BaseFirst(base, ordered) && Latest(base, sorted, ordered, available)
    requires Greedy(PlanNeeds(), {base.id}, sorted) == Some(ordered)
    ensures Loadable(base, sorted)
  {
    SameMembers(ordered, sorted);
    forall p, q | p in sorted && q in p.requirements ensures Versioned(base, sorted, q) {
      InOrderVersioned(base, sorted, ordered, p, q);
    }
  }

  // In an order that meets them, requirements on other plans name those plans' versions.
  lemma InOrderVersioned(base: Requirement, sorted: seq<Plan>, order: seq<Plan>, p: Plan, q: Requirement)
    requires multiset(order) == multiset(sorted) && DistinctBy(IdOf, sorted) && InOrder(base, order)
    requires p in sorted && q in p.requirements
    ensures q.id != base.id ==> Versioned(base, sorted, q)
  {
    SameMembers(order, sorted);
    var i :| 0 <= i < |order| && order[i] == p;
    assert Provides(base, order[..i], q);
    if q.id != base.id {
      var x :| x in order[..i] && x.id == q.id && x.version == q.version;
      assert x in order;
      forall y | y in sorted && y.id == q.id ensures y.version == q.version { SameId(sorted, x, y); }
    }
  }

  lemma MismatchNotLoadable(base: Requirement, sorted: seq<Plan>, ordered: seq<Plan>, pending: seq<Plan>,
                            available: map<string, string>, p: Plan, q: Requirement)
    requires multiset(ordered) + multiset(pending) == multiset(sorted) && Available(base, ordered, available)
    requires Greedy(PlanNeeds(), {base.id}, sorted) == Prepend(ordered, Greedy(PlanNeeds(), available.Keys, pending))
    requires p in pending && q in p.requirements && q.id in available && available[q.id] != q.version
    ensures !Loadable(base, sorted)
  {
    if Loadable(base, sorted) {
      Parts(sorted, ordered, pending);
      assert Versioned(base, sorted, q) && Provides(base, ordered, Requirement(q.id, available[q.id]));
      var x :| x in ordered && x.id == q.id && x.version == available[q.id];
      var rest := Greedy(PlanNeeds(), available.Keys, pending).value;
      GreedySound(PlanNeeds(), available.Keys, pending);
      SameMembers(rest, pending);
      LaterAsks(base, ordered, rest, x, p, q);
    }
  }

  lemma LaterAsks(base: Requirement, ordered: seq<Plan>, rest: seq<Plan>, x: Plan, p: Plan, q: Requirement)
    requires x in ordered && x.id == base.id && x.version != base.version
    requires p in rest && q in p.requirements && q.id == base.id
    ensures !BaseFirst(base, ordered + rest)
  {
    var i :| 0 <= i < |ordered| && ordered[i] == x;
    var j :| 0 <= j < |rest| && rest[j] == p;
    var order := ordered + rest;
    assert order[i] == x && order[|ordered| + j] == p;
    assert base.id in RequiredIds(p);
  }

  // Where an order exists, the plans load exactly when the base bundle's id is asked for at
  // its own version, and not behind a plan that takes it at another.
  lemma LoadableExactly(base: Requirement, sorted: seq<Plan>, order: seq<Plan>)
    requires Ascending(ById, sorted) && PlanOrder(base, sorted, order)
    ensures Greedy(PlanNeeds(), {base.id}, sorted).Some?
    ensures Loadable(base, sorted) <==>
            BaseVersioned(base, sorted) && BaseFirst(base, Greedy(PlanNeeds(), {base.id}, sorted).value)
  {
    AscendingDistinct(sorted);
    PlanOrderFits(base, sorted, order);
    GreedyComplete(PlanNeeds(), {base.id}, sorted, order);
    AllVersionedExactly(base, sorted, order);
  }

  lemma AllVersionedExactly(base: Requirement, sorted: seq<Plan>, order: seq<Plan>)
    requires DistinctBy(IdOf, sorted) && PlanOrder(base, sorted, order)
    ensures AllVersioned(base, sorted) <==> BaseVersioned(base, sorted)
  {
    forall p, q | p in sorted && q in p.requirements
      ensures Versioned(base, sorted, q) <==> (q.id == base.id ==> q.version == base.version)
    {
      InOrderVersioned(base, sorted, order, p, q);
    }
  }

  lemma GreedyFirst<T>(n: Needs<T>, available: set<string>, x: T, rest: seq<T>)
    requires n.needs(x) <= available
    ensures Greedy(n, available, [x] + rest) == Prepend([x], Greedy(n, available + {n.id(x)}, rest))
  {
    assert FirstReady(n, available, [x] + rest) == Some(0);
    assert Remove([x] + rest, 0) == rest;
  }

  // Two plans, the first with the base bundle's id at another version.
  lemma GreedyPair(base: Requirement, x: Plan, z: Plan)
    requires RequiredIds(x) == {} && RequiredIds(z) == {base.id}
    ensures Greedy(PlanNeeds(), {base.id}, [x, z]) == Some([x, z])
  {
    GreedyFirst(PlanNeeds(), {base.id}, x, [z]);
    GreedyFirst(PlanNeeds(), {base.id} + {x.id}, z, []);
    assert [x] + [z] == [x, z] && [z] + [] == [z];
  }

  lemma OneRequirement(p: Plan, q: Requirement)
    requires p.requirements == [q]
    ensures RequiredIds(p) == {q.id}
  {
    assert p.requirements[0] == q;
  }

  lemma PairInOrder(base: Requirement, p: Plan, q: Plan)
    requires forall r :: r in p.requirements ==> r == base
    requires forall r :: r in q.requirements ==> r == base || r == Requirement(p.id, p.version)
    ensures InOrder(base, [p, q])
  {
    var order := [p, q];
    assert order[..1] == [p] && p in [p];
    forall i, r | 0 <= i < |order| && r in order[i].requirements ensures Provides(base, order[..i], r) {
      assert i == 0 || i == 1;
    }
  }

  lemma PairAscending(base: Requirement, x: Plan, z: Plan)
    requires x.id == base.id && StrLess(base.id, z.id)
    ensures Ascending(ById, [x, z])
  {
  }

  // A plan that asks for the base bundle is refused behind it, although it could go first.
  lemma OvertakenBaseRefused(base: Requirement, x: Plan, z: Plan)
    requires x.id == base.id && x.version != base.version && x.requirements == []
    requires z.requirements == [base] && StrLess(base.id, z.id)
    ensures Ascending(ById, [x, z]) && PlanOrder(base, [x, z], [z, x]) && !Loadable(base, [x, z])
  {
    PairAscending(base, x, z);
    PairInOrder(base, z, x);
    OneRequirement(z, base);
    GreedyPair(base, x, z);
    OvertakenPair(base, x, z);
  }

  lemma OvertakenPair(base: Requirement, x: Plan, z: Plan)
    requires x.id == base.id && x.version != base.version && base.id in RequiredIds(z)
    ensures !BaseFirst(base, [x, z])
  {
    var order := [x, z];
    assert order[0] == x && order[1] == z;
  }

  // A plan that asks for the other version is refused at once, although it could go behind.
  lemma OtherVersionRefused(base: Requirement, x: Plan, z: Plan)
    requires x.id == base.id && x.version != base.version && x.requirements == []
    requires z.requirements == [Requirement(x.id, x.version)] && StrLess(base.id, z.id)
    ensures Ascending(ById, [x, z]) && PlanOrder(base, [x, z], [x, z]) && !Loadable(base, [x, z])
  {
    PairAscending(base, x, z);
    PairInOrder(base, x, z);
    var q := Requirement(x.id, x.version);
    assert z in [x, z] && q in z.requirements && !Versioned(base, [x, z], q);
  }

  lemma RefusedInput()
    ensures var base, svc, zz := Requirement("svc", "1"), Plan("svc", "2", []), Plan("zz", "1", [Requirement("svc", "1")]);
            PlanOrder(base, [svc, zz], [zz, svc]) && !Loadable(base, [svc, zz])
  {
    OvertakenBaseRefused(Requirement("svc", "1"), Plan("svc", "2", []), Plan("zz", "1", [Requirement("svc", "1")]));
  }

  lemma Parts(sorted: seq<Plan>, ordered: seq<Plan>, pending: seq<Plan>)
    requires multiset(ordered) + multiset(pending) == multiset(sorted)
    ensures forall p :: p in sorted <==> p in ordered || p in pending
  {
    SameMembers(ordered + pending, sorted);
  }

  lemma NoneReady(base: Requirement, sorted: seq<Plan>, ordered: seq<Plan>, pending: seq<Plan>,
                  available: map<string, string>)
    requires multiset(ordered) + multiset(pending) == multiset(sorted)
    requires Available(base, ordered, available)
    requires pending != [] && forall p :: p in pending ==> !(RequiredIds(p) <= available.Keys)
    ensures Stuck(base, sorted, pending)
  {
    Parts(sorted, ordered, pending);
    forall p | p in pending ensures Waits(base, sorted, pending, p) {
      var id :| id in RequiredIds(p) && id !in available;
      forall x | x in sorted && x.id == id ensures x in pending {
        if x in ordered { KeyMember(IdOf, ordered, x); }
      }
      assert OnlyIn(sorted, pending, id);
    }
  }

  lemma MismatchFound(base: Requirement, sorted: seq<Plan>, ordered: seq<Plan>, pending: seq<Plan>,
                      available: map<string, string>, p: Plan, q: Requirement)
    requires Ascending(ById, sorted)
    requires multiset(ordered) + multiset(pending) == multiset(sorted)
    requires Available(base, ordered, available)
    requires p in pending && q in p.requirements && q.id in available && available[q.id] != q.version
    ensures Clashes(base, sorted, p, q)
    ensures KeepsBase(base, sorted) ==> forall order :: !PlanOrder(base, sorted, order)
  {
    AscendingDistinct(sorted);
    Parts(sorted, ordered, pending);
    var found := Requirement(q.id, available[q.id]);
    assert Provides(base, ordered, found);
    ProvidesMore(base, ordered, sorted, found);
    if KeepsBase(base, sorted) { MismatchBlocks(base, sorted, p, q, found); }
  }

  lemma AscendingDistinct(sorted: seq<Plan>)
    requires Ascending(ById, sorted)
    ensures DistinctBy(IdOf, sorted)
  {
    forall i, j | 0 <= i < j < |sorted| ensures sorted[i].id != sorted[j].id {
      assert ById(sorted[i], sorted[j]);
      StrIrreflexive(sorted[i].id);
    }
  }

  lemma SameReason(base: Requirement, plans: seq<Plan>, again: seq<Plan>, r: Loaded)
    requires Explained(base, plans, r) && !r.Duplicate? && forall p :: p in plans <==> p in again
    ensures Explained(base, again, r)
  {
    match r {
      case Ordered(_) =>
      case Mismatch(p, q) =>
        var found :| Provides(base, plans, found) && found.id == q.id && found != q;
        ProvidesMore(base, plans, again, found);
      case Unorderable(pending) =>
        forall p | p in pending ensures Waits(base, again, pending, p) {
          assert Waits(base, plans, pending, p);
          var id :| id in RequiredIds(p) && id != base.id && OnlyIn(plans, pending, id);
          assert OnlyIn(again, pending, id);
        }
    }
  }

  // There is one ascending list of plans with distinct ids.
  lemma SortedOnce(read: seq<Plan>, sorted: seq<Plan>)
    requires DistinctBy(IdOf, read) && multiset(sorted) == multiset(read) && Ascending(ById, sorted)
    ensures sorted == Sort(read, ByIdLe)
  {
    var other := Sort(read, ByIdLe);
    SortMultiset(read, ByIdLe);
    ByIdOrder();
    SortSorted(read, ByIdLe);
    KeysPermuted(IdOf, other, read);
    AscendingDistinct(sorted);
    SameMembers(sorted, other);
    forall i, j | 0 <= i < j < |other| ensures other[i] != other[j] { assert IdOf(other[i]) != IdOf(other[j]); }
    forall i, j | 0 <= i < j < |sorted| ensures ByIdLe(sorted[i], sorted[j]) && sorted[i] != sorted[j] {
      assert ById(sorted[i], sorted[j]) && IdOf(sorted[i]) != IdOf(sorted[j]);
    }
    forall x, y | x in sorted && y in sorted && ByIdLe(x, y) && ByIdLe(y, x) ensures x == y {
      if x.id != y.id { StrAsymmetric(y.id, x.id); }
      SameId(sorted, x, y);
    }
    StrictlySortedUnique(sorted, other, ByIdLe);
  }

  lemma SameId(plans: seq<Plan>, x: Plan, y: Plan)
    requires DistinctBy(IdOf, plans) && x in plans && y in plans && x.id == y.id
    ensures x == y
  {
    var i :| 0 <= i < |plans| && plans[i] == x;
    var j :| 0 <= j < |plans| && plans[j] == y;
  }

  lemma ByIdOrder()
    ensures TotalPreorder(ByIdLe)
  {
    StrLeTotal();
    forall x, y ensures ByIdLe(x, y) || ByIdLe(y, x) { assert StrLe(x.id, y.id) || StrLe(y.id, x.id); }
    forall x, y, z | ByIdLe(x, y) && ByIdLe(y, z) ensures ByIdLe(x, z) { assert StrLe(x.id, y.id) && StrLe(y.id, z.id); }
  }

  // `read` lists the plans in the order the directory happens to yield them.
  // The least order by ids among those that load.
  ghost predicate LeastOrder(base: Requirement, read: seq<Plan>, order: seq<Plan>) {
    PlanOrder(base, read, order) && forall other :: PlanOrder(base, read, other) ==> LexLe(ById, order, other)
  }

  // What is loaded depends on the plans alone, not on the order they were read in.
  lemma LoadedOnce(base: Requirement, read: seq<Plan>, again: seq<Plan>, a: seq<Plan>, b: seq<Plan>)
    requires multiset(read) == multiset(again) && LeastOrder(base, read, a) && LeastOrder(base, again, b)
    ensures a == b
  {
    assert PlanOrder(base, again, a) && PlanOrder(base, read, b);
    forall x, y | ById(x, y) ensures !ById(y, x) { StrAsymmetric(y.id, x.id); }
    LexAntisymmetric(ById, a, b);
  }

  // However the plans are read, what loads is the same.
  ghost predicate SameHowever(base: Requirement, read: seq<Plan>, plans: seq<Plan>) {
    forall again, order :: multiset(again) == multiset(read) && LeastOrder(base, again, order) ==> order == plans
  }

  method LoadPlans(base: Requirement, read: seq<Plan>) returns (r: Loaded)
    ensures r.Duplicate? <==> !DistinctBy(IdOf, read)
    ensures r.Ordered? ==> LeastOrder(base, read, r.plans) && SameHowever(base, read, r.plans)
    ensures KeepsBase(base, read) && DistinctBy(IdOf, read) && !r.Ordered? ==>
              forall order :: !PlanOrder(base, read, order)
    ensures Explained(base, read, r)
    ensures r.Ordered? <==> DistinctBy(IdOf, read) && Loadable(base, Sort(read, ByIdLe))
  {
    var duplicate, sorted := Collect(read);
    if duplicate.Some? { return Duplicate(duplicate.value); }
    SameMembers(sorted, read);
    SortedOnce(read, sorted);
    r := Order(base, sorted);
    SameReason(base, sorted, read, r);
    forall order | PlanOrder(base, read, order)
      ensures Greedy(PlanNeeds(), {base.id}, sorted).Some?
      ensures LexLe(ById, Greedy(PlanNeeds(), {base.id}, sorted).value, order)
    {
      PlanOrderFits(base, read, order);
      GreedyLeast(PlanNeeds(), ById, {base.id}, sorted, order);
    }
    assert forall order :: PlanOrder(base, read, order) <==> PlanOrder(base, sorted, order);
    if r.Ordered? {
      forall again, order | multiset(again) == multiset(read) && LeastOrder(base, again, order) ensures order == r.plans {
        LoadedOnce(base, read, again, r.plans, order);
      }
    }
  }

  // Compared with any other order, the loaded one has the smaller id where they first differ.
  lemma {:induction false} LeastFirst(a: seq<Plan>, b: seq<Plan>) returns (i: nat)
    requires LexLe(ById, a, b) && |a| == |b| && a != b
    ensures i < |a| && a[..i] == b[..i] && StrLess(a[i].id, b[i].id)
  {
    if ById(a[0], b[0]) {
      i := 0;
    } else {
      assert a == [a[0]] + a[1..] && b == [b[0]] + b[1..];
      var j := LeastFirst(a[1..], b[1..]);
      i := j + 1;
      assert a[..i] == [a[0]] + a[1..][..j] && b[..i] == [b[0]] + b[1..][..j];
    }
  }

  lemma LeastById(base: Requirement, read: seq<Plan>, a: seq<Plan>, b: seq<Plan>)
    requires LeastOrder(base, read, a) && PlanOrder(base, read, b) && a != b
    ensures exists i :: 0 <= i < |a| && i < |b| && a[..i] == b[..i] && StrLess(a[i].id, b[i].id)
  {
    assert |multiset(a)| == |a| && |multiset(b)| == |b|;
    var i := LeastFirst(a, b);
  }
}
