/**
 The two depth-first searches that look for a dependency cycle: one stops at
 the first error, the other collects errors and goes on.
 */
module TaskSearch {
  import opened TaskGraph
  import opened Seqs

  datatype Verdict = Ok | CycleAt(id: string) | Unknown(id: string)

  class Search {
    const g: Graph
    var visiting: set<string>
    var complete: set<string>
    ghost var order: seq<string>

    constructor (g: Graph)
      ensures this.g == g && Valid() && visiting == {}
    {
      this.g := g;
      visiting, complete, order := {}, {}, [];
    }

    // The completed tasks, in the order they were completed.
    ghost predicate Valid()
      reads this
    {
      Topological(g, order) && complete == Elements(order) <= g.Keys
    }

    method Visit(id: string, ghost stack: seq<string>) returns (r: Verdict)
      requires Valid() && visiting == Elements(stack) && Path(g, stack + [id])
      modifies this
      ensures r.Ok? ==> Valid() && visiting == old(visiting) && id in complete && old(complete) <= complete
      ensures r.CycleAt? ==> OnCycle(g, r.id)
      ensures r.Unknown? ==> r.id !in g && (r.id == id || !Known(g))
      decreases g.Keys - visiting
    {
      if id in complete { return Ok; }
      if id in visiting {
        StackCloses(g, stack, id);
        return CycleAt(id);
      }
      ghost var before := visiting;
      visiting := visiting + {id};
      if id !in g { return Unknown(id); }
      var deps := g[id];
      for i := 0 to |deps|
        invariant Valid() && visiting == before + {id} && old(complete) <= complete
        invariant forall d :: d in deps[..i] ==> d in complete
      {
        PathSnoc(g, stack + [id], deps[i]);
        var v := Visit(deps[i], stack + [id]);
        if !v.Ok? { return v; }
      }
      assert deps[..|deps|] == deps;
      TopologicalSnoc(g, order, id);
      visiting := visiting - {id};
      complete := complete + {id};
      order := order + [id];
      return Ok;
    }
  }

  // `keys` is the order in which the task map happens to be traversed.
  method ValidateTaskDag(g: Graph, keys: seq<string>) returns (r: Verdict)
    requires Elements(keys) == g.Keys
    ensures r.Ok? <==> Known(g) && !Cyclic(g)
    ensures r.CycleAt? ==> OnCycle(g, r.id)
    ensures r.Unknown? ==> r.id !in g
  {
    var search := new Search(g);
    for i := 0 to |keys|
      invariant search.g == g && search.Valid() && search.visiting == {}
      invariant forall id :: id in keys[..i] ==> id in search.complete
    {
      assert keys[i] in Elements(keys);
      var v := search.Visit(keys[i], []);
      if !v.Ok? { return v; }
    }
    assert keys[..|keys|] == keys;
    TopologicalNotCyclic(g, search.order);
    TopologicalKnown(g, search.order);
    return Ok;
  }

  class Collector {
    const g: Graph
    var temporary: set<string>
    var permanent: set<string>
    var errors: seq<string>
    ghost var order: seq<string>

    constructor (g: Graph)
      ensures this.g == g && Valid() && temporary == {} && errors == []
    {
      this.g := g;
      temporary, permanent, errors, order := {}, {}, [], [];
    }

    // As long as nothing was reported the permanent tasks are in topological order,
    // and whatever was reported lies on a cycle.
    ghost predicate Valid()
      reads this
    {
      && permanent == Elements(order)
      && (errors == [] ==> Topological(g, order))
      && forall e :: e in errors ==> OnCycle(g, e)
    }

    method Visit(id: string, ghost stack: seq<string>)
      requires Valid() && temporary == Elements(stack) && Path(g, stack + [id])
      modifies this
      ensures Valid() && temporary == old(temporary) && old(permanent) <= permanent
      ensures old(errors) <= errors
      ensures errors == old(errors) ==> id in permanent
      ensures id in permanent || id in temporary
      decreases g.Keys - temporary
    {
      if id in permanent { return; }
      if id in temporary {
        StackCloses(g, stack, id);
        errors := errors + [id];
        return;
      }
      temporary := temporary + {id};
      var deps := Deps(g, id);
      for i := 0 to |deps|
        invariant Valid() && temporary == old(temporary) + {id} && old(permanent) <= permanent
        invariant old(errors) <= errors
        invariant errors == old(errors) ==> forall d :: d in deps[..i] ==> d in permanent
      {
        PathSnoc(g, stack + [id], deps[i]);
        Visit(deps[i], stack + [id]);
      }
      assert deps[..|deps|] == deps;
      if errors == [] { TopologicalSnoc(g, order, id); }
      temporary := temporary - {id};
      permanent := permanent + {id};
      order := order + [id];
    }
  }

  method CollectCycles(g: Graph, keys: seq<string>) returns (errors: seq<string>)
    requires Elements(keys) == g.Keys
    ensures errors != [] <==> Cyclic(g)
    ensures forall e :: e in errors ==> OnCycle(g, e)
  {
    var search := new Collector(g);
    for i := 0 to |keys|
      invariant search.g == g && search.Valid() && search.temporary == {}
      invariant forall id :: id in keys[..i] ==> id in search.permanent
    {
      search.Visit(keys[i], []);
    }
    assert keys[..|keys|] == keys;
    errors := search.errors;
    if errors == [] {
      TopologicalNotCyclic(g, search.order);
    } else {
      assert OnCycle(g, errors[0]);
    }
  }
}
