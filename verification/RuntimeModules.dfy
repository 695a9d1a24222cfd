/**
 The prerequisite order of the runtime modules of a catalog.
 */
module RuntimeModules {
  import opened Json
  import opened Keyed
  import opened GreedyOrder

  datatype Module = Module(id: string, tooling: bool, requirements: seq<string>)

  function IdOf(m: Module): string {
    m.id
  }

  function RequiredIds(m: Module): set<string> {
    set i | 0 <= i < |m.requirements| :: m.requirements[i]
  }

  function ModuleNeeds(): Needs<Module> {
    Needs((m: Module) => m.id, (m: Module) => RequiredIds(m))
  }

  function Runtime(catalog: seq<Module>): seq<Module> {
    if catalog == [] then []
    else (if catalog[0].tooling then [] else [catalog[0]]) + Runtime(catalog[1..])
  }

  // Every module once, each after everything it requires.
  ghost predicate ModuleOrder(runtime: seq<Module>, order: seq<Module>) {
    multiset(order) == multiset(runtime)
    && forall i :: 0 <= i < |order| ==> RequiredIds(order[i]) <= Keys(IdOf, order[..i])
  }

  // `a` stands before `b` in the catalog.
  ghost predicate Before(runtime: seq<Module>, a: Module, b: Module) {
    exists i, j :: 0 <= i < j < |runtime| && runtime[i] == a && runtime[j] == b
  }

  ghost function Earlier(runtime: seq<Module>): (Module, Module) -> bool {
    (a, b) => Before(runtime, a, b)
  }

  lemma {:induction false} OrderFitsFrom(order: seq<Module>, k: nat)
    requires forall i :: 0 <= i < |order| ==> RequiredIds(order[i]) <= Keys(IdOf, order[..i])
    requires k <= |order|
    ensures Fits(ModuleNeeds(), Keys(IdOf, order[..k]), order[k..])
    decreases |order| - k
  {
    if k < |order| {
      OrderFitsFrom(order, k + 1);
      assert order[..k + 1] == order[..k] + [order[k]];
      KeysSnoc(IdOf, order[..k], order[k]);
      assert order[k..][1..] == order[k + 1..];
    }
  }

  lemma OrderFits(runtime: seq<Module>, order: seq<Module>)
    requires ModuleOrder(runtime, order)
    ensures Fits(ModuleNeeds(), {}, order)
  {
    OrderFitsFrom(order, 0);
    assert order[..0] == [] && order[0..] == order && Keys(IdOf, []) == {};
  }

  // An order can only exist where every requirement is itself a runtime module.
  lemma OrderSelects(runtime: seq<Module>, order: seq<Module>, m: Module)
    requires ModuleOrder(runtime, order) && m in runtime
    ensures RequiredIds(m) <= Keys(IdOf, runtime)
  {
    assert m in multiset(order);
    var i :| 0 <= i < |order| && order[i] == m;
    forall x | x in RequiredIds(m) ensures x in Keys(IdOf, runtime) {
      var j :| 0 <= j < |order[..i]| && order[..i][j].id == x;
      assert order[j] in multiset(runtime);
      KeyMember(IdOf, runtime, order[j]);
    }
  }

  // ----- One id, one module -----

  // Modules of distinct ids, as many as the runtime holds: its ids are distinct too.
  lemma FullMeansDistinct(runtime: seq<Module>, ordered: seq<Module>)
    requires DistinctBy(IdOf, ordered) && Keys(IdOf, ordered) <= Keys(IdOf, runtime) && |ordered| == |runtime|
    ensures DistinctBy(IdOf, runtime)
  {
    KeysBound(IdOf, ordered);
    KeysBound(IdOf, runtime);
    SubsetSize(Keys(IdOf, ordered), Keys(IdOf, runtime));
  }

  // ----- The modules still to be emitted -----

  predicate Ready(emitted: set<string>, m: Module) {
    m.id !in emitted && RequiredIds(m) <= emitted
  }

  function FindReady(runtime: seq<Module>, emitted: set<string>): (r: Option<nat>)
    ensures r.Some? ==> r.value < |runtime| && Ready(emitted, runtime[r.value])
    ensures r.Some? ==> forall i :: 0 <= i < r.value ==> !Ready(emitted, runtime[i])
    ensures r.None? ==> forall i :: 0 <= i < |runtime| ==> !Ready(emitted, runtime[i])
  {
    if runtime == [] then None
    else if Ready(emitted, runtime[0]) then Some(0)
    else
      match FindReady(runtime[1..], emitted)
      case None => None
      case Some(k) => Some(k + 1)
  }

  function Pending(runtime: seq<Module>, emitted: set<string>): seq<Module> {
    if runtime == [] then []
    else if runtime[0].id in emitted then Pending(runtime[1..], emitted)
    else [runtime[0]] + Pending(runtime[1..], emitted)
  }

  lemma {:induction false} PendingMembers(runtime: seq<Module>, emitted: set<string>)
    ensures forall m :: m in Pending(runtime, emitted) <==> m in runtime && m.id !in emitted
  {
    if runtime != [] {
      PendingMembers(runtime[1..], emitted);
      assert runtime == [runtime[0]] + runtime[1..];
    }
  }

  lemma Regrouped(head: seq<Module>, x: seq<Module>, y: seq<Module>)
    ensures head + (x + y) == head + x + y
  {
  }

  lemma {:induction false} PendingConcat(a: seq<Module>, b: seq<Module>, emitted: set<string>)
    ensures Pending(a + b, emitted) == Pending(a, emitted) + Pending(b, emitted)
  {
    if a == [] {
      assert a + b == b;
    } else {
      PendingConcat(a[1..], b, emitted);
      PendingStep(a + b, a[0], a[1..] + b, emitted);
      Regrouped([a[0]], Pending(a[1..], emitted), Pending(b, emitted));
    }
  }

  lemma PendingStep(ms: seq<Module>, m: Module, rest: seq<Module>, emitted: set<string>)
    requires ms != [] && ms[0] == m && ms[1..] == rest
    ensures Pending(ms, emitted) == if m.id in emitted then Pending(rest, emitted) else [m] + Pending(rest, emitted)
  {
  }

  lemma {:induction false} PendingOther(runtime: seq<Module>, emitted: set<string>, id: string)
    requires id !in Keys(IdOf, runtime)
    ensures Pending(runtime, emitted + {id}) == Pending(runtime, emitted)
  {
    if runtime != [] {
      assert runtime[0].id in Keys(IdOf, runtime);
      forall x | x in Keys(IdOf, runtime[1..]) ensures x in Keys(IdOf, runtime) {
        var i :| 0 <= i < |runtime[1..]| && runtime[1..][i].id == x;
        assert runtime[i + 1].id == x;
      }
      PendingOther(runtime[1..], emitted, id);
    }
  }

  lemma PendingAround(runtime: seq<Module>, emitted: set<string>, k: nat)
    requires k < |runtime|
    ensures Pending(runtime, emitted)
            == Pending(runtime[..k], emitted) + Pending([runtime[k]], emitted) + Pending(runtime[k + 1..], emitted)
  {
    assert runtime == runtime[..k] + [runtime[k]] + runtime[k + 1..];
    PendingConcat(runtime[..k] + [runtime[k]], runtime[k + 1..], emitted);
    PendingConcat(runtime[..k], [runtime[k]], emitted);
  }

  lemma DistinctAround(runtime: seq<Module>, k: nat)
    requires DistinctBy(IdOf, runtime) && k < |runtime|
    ensures runtime[k].id !in Keys(IdOf, runtime[..k]) && runtime[k].id !in Keys(IdOf, runtime[k + 1..])
  {
  }

  lemma PendingEmit(runtime: seq<Module>, emitted: set<string>, k: nat)
    requires DistinctBy(IdOf, runtime) && k < |runtime| && runtime[k].id !in emitted
    ensures var at := |Pending(runtime[..k], emitted)|;
            at < |Pending(runtime, emitted)| && Pending(runtime, emitted)[at] == runtime[k]
            && Pending(runtime, emitted + {runtime[k].id}) == Remove(Pending(runtime, emitted), at)
  {
    var id := runtime[k].id;
    PendingAround(runtime, emitted, k);
    PendingAround(runtime, emitted + {id}, k);
    DistinctAround(runtime, k);
    PendingOther(runtime[..k], emitted, id);
    PendingOther(runtime[k + 1..], emitted, id);
    PendingOne(runtime[k], emitted);
    RemoveMiddle(Pending(runtime[..k], emitted), runtime[k], Pending(runtime[k + 1..], emitted));
  }

  lemma PendingOne(m: Module, emitted: set<string>)
    requires m.id !in emitted
    ensures Pending([m], emitted) == [m] && Pending([m], emitted + {m.id}) == []
  {
    assert [m][1..] == [];
  }

  lemma RemoveMiddle(a: seq<Module>, m: Module, b: seq<Module>)
    ensures (a + [m] + b)[|a|] == m && Remove(a + [m] + b, |a|) == a + [] + b
  {
  }

  lemma {:induction false} FirstReadyAt(pending: seq<Module>, emitted: set<string>, at: nat)
    requires at < |pending| && RequiredIds(pending[at]) <= emitted
    requires forall i :: 0 <= i < at ==> !(RequiredIds(pending[i]) <= emitted)
    ensures FirstReady(ModuleNeeds(), emitted, pending) == Some(at)
  {
    var r := FirstReady(ModuleNeeds(), emitted, pending);
    assert ModuleNeeds().needs(pending[at]) <= emitted;
    assert r.Some?;
    assert r.value >= at;
  }

  // The first ready module of the catalog is the first ready one among the pending.
  lemma FoundIsFirst(runtime: seq<Module>, emitted: set<string>, k: nat)
    requires DistinctBy(IdOf, runtime) && FindReady(runtime, emitted) == Some(k)
    ensures FirstReady(ModuleNeeds(), emitted, Pending(runtime, emitted))
            == Some(|Pending(runtime[..k], emitted)|)
  {
    PendingEmit(runtime, emitted, k);
    PendingAround(runtime, emitted, k);
    PendingMembers(runtime[..k], emitted);
    var early, pending := Pending(runtime[..k], emitted), Pending(runtime, emitted);
    forall i | 0 <= i < |early| ensures !(RequiredIds(pending[i]) <= emitted) {
      assert pending[i] == early[i] && early[i] in early;
      var j :| 0 <= j < k && runtime[j] == early[i];
      assert !Ready(emitted, runtime[j]);
    }
    FirstReadyAt(pending, emitted, |early|);
  }

  lemma NoneReady(runtime: seq<Module>, emitted: set<string>)
    requires FindReady(runtime, emitted).None? && Pending(runtime, emitted) != []
    ensures Greedy(ModuleNeeds(), emitted, Pending(runtime, emitted)) == None
  {
    var pending := Pending(runtime, emitted);
    PendingMembers(runtime, emitted);
    forall i | 0 <= i < |pending| ensures !(ModuleNeeds().needs(pending[i]) <= emitted) {
      assert pending[i] in pending;
      var j :| 0 <= j < |runtime| && runtime[j] == pending[i];
      assert !Ready(emitted, runtime[j]);
    }
  }

  // ----- The loop -----

  ghost function Future(runtime: seq<Module>, ordered: seq<Module>, emitted: set<string>): Option<seq<Module>> {
    Prepend(ordered, Greedy(ModuleNeeds(), emitted, Pending(runtime, emitted)))
  }

  lemma FutureKept(runtime: seq<Module>, ordered: seq<Module>, emitted: set<string>, k: nat)
    requires DistinctBy(IdOf, runtime) && FindReady(runtime, emitted) == Some(k)
    ensures Future(runtime, ordered, emitted)
            == Future(runtime, ordered + [runtime[k]], emitted + {runtime[k].id})
  {
    FoundIsFirst(runtime, emitted, k);
    PendingEmit(runtime, emitted, k);
    GreedyStep(ModuleNeeds(), emitted, Pending(runtime, emitted), ordered, |Pending(runtime[..k], emitted)|);
  }

  lemma {:induction false} AllPending(runtime: seq<Module>)
    ensures Pending(runtime, {}) == runtime
  {
    if runtime != [] { AllPending(runtime[1..]); }
  }

  // A full list of distinct modules of the runtime leaves nothing pending.
  lemma {:induction false} NothingPending(runtime: seq<Module>, emitted: set<string>)
    requires Keys(IdOf, runtime) <= emitted
    ensures Pending(runtime, emitted) == []
  {
    if runtime != [] {
      assert runtime[0].id in Keys(IdOf, runtime);
      forall x | x in Keys(IdOf, runtime[1..]) ensures x in Keys(IdOf, runtime) {
        var i :| 0 <= i < |runtime[1..]| && runtime[1..][i].id == x;
        assert runtime[i + 1].id == x;
      }
      NothingPending(runtime[1..], emitted);
    }
  }

  lemma FullEmits(runtime: seq<Module>, ordered: seq<Module>)
    requires DistinctBy(IdOf, ordered) && DistinctBy(IdOf, runtime) && Keys(IdOf, ordered) <= Keys(IdOf, runtime)
    requires |ordered| == |runtime|
    ensures Keys(IdOf, runtime) <= Keys(IdOf, ordered)
  {
    KeysBound(IdOf, ordered);
    KeysBound(IdOf, runtime);
    var missing := Keys(IdOf, runtime) - Keys(IdOf, ordered);
    assert Keys(IdOf, runtime) == Keys(IdOf, ordered) + missing;
    assert |missing| == 0;
  }

  datatype Listed = Listed(modules: seq<Module>) | NotRuntime(m: Module, requirement: string) | Unorderable

  method CheckRequirements(runtime: seq<Module>) returns (bad: Option<(Module, string)>)
    ensures bad.None? ==> forall m :: m in runtime ==> RequiredIds(m) <= Keys(IdOf, runtime)
    ensures bad.Some? ==> bad.value.0 in runtime && bad.value.1 in RequiredIds(bad.value.0) - Keys(IdOf, runtime)
  {
    var selected := Keys(IdOf, runtime);
    for i := 0 to |runtime|
      invariant forall m :: m in runtime[..i] ==> RequiredIds(m) <= selected
    {
      var required := runtime[i].requirements;
      for j := 0 to |required|
        invariant forall l :: 0 <= l < j ==> required[l] in selected
      {
        if required[j] !in selected { return Some((runtime[i], required[j])); }
      }
    }
    assert runtime[..|runtime|] == runtime;
    bad := None;
  }

  method OrderRuntime(runtime: seq<Module>) returns (r: Option<seq<Module>>)
    ensures r.Some? ==> DistinctBy(IdOf, runtime)
    ensures DistinctBy(IdOf, runtime) ==> r == Greedy(ModuleNeeds(), {}, runtime)
  {
    var ordered: seq<Module>, emitted: set<string> := [], {};
    AllPending(runtime);
    PrependNothing(Greedy(ModuleNeeds(), {}, runtime));
    while |ordered| < |runtime|
      invariant |ordered| <= |runtime|
      invariant emitted == Keys(IdOf, ordered) <= Keys(IdOf, runtime) && DistinctBy(IdOf, ordered)
      invariant DistinctBy(IdOf, runtime) ==> Greedy(ModuleNeeds(), {}, runtime) == Future(runtime, ordered, emitted)
      decreases |runtime| - |ordered|
    {
      var found := FindReady(runtime, emitted);
      if found.None? {
        if DistinctBy(IdOf, runtime) { Stuck(runtime, ordered); }
        return None;
      }
      var m := runtime[found.value];
      if DistinctBy(IdOf, runtime) { FutureKept(runtime, ordered, emitted, found.value); }
      KeysSnoc(IdOf, ordered, m);
      DistinctSnoc(IdOf, ordered, m);
      emitted := emitted + {m.id};
      ordered := ordered + [m];
    }
    FullMeansDistinct(runtime, ordered);
    FullEmits(runtime, ordered);
    NothingPending(runtime, emitted);
    assert ordered + [] == ordered;
    r := Some(ordered);
  }

  lemma Stuck(runtime: seq<Module>, ordered: seq<Module>)
    requires DistinctBy(IdOf, runtime) && |ordered| < |runtime|
    requires FindReady(runtime, Keys(IdOf, ordered)).None?
    ensures Greedy(ModuleNeeds(), Keys(IdOf, ordered), Pending(runtime, Keys(IdOf, ordered))) == None
  {
    KeysBound(IdOf, ordered);
    KeysBound(IdOf, runtime);
    PendingMembers(runtime, Keys(IdOf, ordered));
    if Pending(runtime, Keys(IdOf, ordered)) == [] {
      forall x | x in Keys(IdOf, runtime) ensures x in Keys(IdOf, ordered) {
        var i :| 0 <= i < |runtime| && runtime[i].id == x;
        assert runtime[i] in runtime && runtime[i] !in Pending(runtime, Keys(IdOf, ordered));
      }
      SubsetSize(Keys(IdOf, runtime), Keys(IdOf, ordered));
    } else {
      NoneReady(runtime, Keys(IdOf, ordered));
    }
  }

  // The modules are listed exactly when their ids are distinct and some order of
  // them respects the requirements; the list is then the first such order in the
  // catalog's own order.
  lemma ListedMembers(catalog: seq<Module>, order: seq<Module>)
    requires ModuleOrder(Runtime(catalog), order)
    ensures forall m :: m in order <==> m in catalog && !m.tooling
  {
    RuntimeExactly(catalog);
    forall m ensures m in order <==> m in Runtime(catalog) { assert m in multiset(order) <==> m in multiset(Runtime(catalog)); }
  }

  method ListRuntimeModules(catalog: seq<Module>) returns (r: Listed)
    ensures var runtime := Runtime(catalog);
            r.Listed? <==> DistinctBy(IdOf, runtime) && exists order :: ModuleOrder(runtime, order)
    ensures r.Listed? ==> ModuleOrder(Runtime(catalog), r.modules)
    ensures r.Listed? ==> forall m :: m in r.modules <==> m in catalog && !m.tooling
    ensures r.Listed? ==> forall order :: ModuleOrder(Runtime(catalog), order) ==>
              LexLe(Earlier(Runtime(catalog)), r.modules, order)
    ensures r.NotRuntime? ==> r.m in Runtime(catalog) && r.requirement in RequiredIds(r.m) - Keys(IdOf, Runtime(catalog))
  {
    var runtime := Runtime(catalog);
    var bad := CheckRequirements(runtime);
    if bad.Some? {
      forall order ensures !ModuleOrder(runtime, order) {
        if ModuleOrder(runtime, order) { OrderSelects(runtime, order, bad.value.0); }
      }
      return NotRuntime(bad.value.0, bad.value.1);
    }
    var listed := OrderRuntime(runtime);
    if listed.Some? {
      ListedSound(runtime);
      ListedMembers(catalog, listed.value);
    }
    forall order | ModuleOrder(runtime, order)
      ensures Greedy(ModuleNeeds(), {}, runtime).Some?
      ensures LexLe(Earlier(runtime), Greedy(ModuleNeeds(), {}, runtime).value, order)
    {
      ListedLeast(runtime, order);
    }
    match listed {
      case None => r := Unorderable;
      case Some(modules) => r := Listed(modules);
    }
  }

  lemma ListedSound(runtime: seq<Module>)
    requires Greedy(ModuleNeeds(), {}, runtime).Some?
    ensures ModuleOrder(runtime, Greedy(ModuleNeeds(), {}, runtime).value)
  {
    var order := Greedy(ModuleNeeds(), {}, runtime).value;
    GreedySound(ModuleNeeds(), {}, runtime);
    assert order[..0] == [] && order[0..] == order && Keys(IdOf, []) == {};
    FitsOrder(order, 0);
  }

  lemma ListedLeast(runtime: seq<Module>, order: seq<Module>)
    requires ModuleOrder(runtime, order)
    ensures Greedy(ModuleNeeds(), {}, runtime).Some?
    ensures LexLe(Earlier(runtime), Greedy(ModuleNeeds(), {}, runtime).value, order)
  {
    OrderFits(runtime, order);
    assert Ascending(Earlier(runtime), runtime);
    GreedyLeast(ModuleNeeds(), Earlier(runtime), {}, runtime, order);
  }

  lemma {:induction false} FitsOrder(order: seq<Module>, k: nat)
    requires k <= |order| && Fits(ModuleNeeds(), Keys(IdOf, order[..k]), order[k..])
    ensures forall i :: k <= i < |order| ==> RequiredIds(order[i]) <= Keys(IdOf, order[..i])
    decreases |order| - k
  {
    if k < |order| {
      assert order[..k + 1] == order[..k] + [order[k]];
      KeysSnoc(IdOf, order[..k], order[k]);
      assert order[k..][1..] == order[k + 1..];
      FitsOrder(order, k + 1);
    }
  }

  // The runtime modules are those that are no tooling, in the order of the catalog.
  lemma {:induction false} RuntimeExactly(catalog: seq<Module>)
    ensures forall m :: m in Runtime(catalog) <==> m in catalog && !m.tooling
  {
    if catalog != [] {
      RuntimeExactly(catalog[1..]);
      assert catalog == [catalog[0]] + catalog[1..];
    }
  }

  lemma {:induction false} RuntimeConcat(a: seq<Module>, b: seq<Module>)
    ensures Runtime(a + b) == Runtime(a) + Runtime(b)
  {
    if a == [] {
      assert a + b == b;
    } else {
      RuntimeConcat(a[1..], b);
      var head := if a[0].tooling then [] else [a[0]];
      assert (a + b)[1..] == a[1..] + b && (a + b)[0] == a[0];
      assert head + (Runtime(a[1..]) + Runtime(b)) == head + Runtime(a[1..]) + Runtime(b);
    }
  }
}
