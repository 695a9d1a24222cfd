/**
 Task dependency graphs: paths, cycles and topological orders.
 */
module TaskGraph {
  import opened Seqs

  type Graph = map<string, seq<string>>

  function Deps(g: Graph, id: string): seq<string> {
    if id in g then g[id] else []
  }

  ghost predicate Path(g: Graph, p: seq<string>) {
    |p| > 0 && forall i :: 0 < i < |p| ==> p[i] in Deps(g, p[i - 1])
  }

  ghost predicate Cycle(g: Graph, p: seq<string>) {
    |p| > 1 && Path(g, p) && p[0] == p[|p| - 1]
  }

  ghost predicate Cyclic(g: Graph) {
    exists p :: Cycle(g, p)
  }

  ghost predicate Known(g: Graph) {
    forall id, d :: id in g && d in g[id] ==> d in g
  }

  // Every dependency of a task stands before it.
  ghost predicate Topological(g: Graph, order: seq<string>) {
    forall i, d :: 0 <= i < |order| && d in Deps(g, order[i]) ==> d in order[..i]
  }

  lemma TopologicalSnoc(g: Graph, order: seq<string>, id: string)
    requires Topological(g, order) && forall d :: d in Deps(g, id) ==> d in order
    ensures Topological(g, order + [id])
  {
    forall i, d | 0 <= i <= |order| && d in Deps(g, (order + [id])[i]) ensures d in (order + [id])[..i] {
      assert (order + [id])[..i] == order[..i];
      if i == |order| {
        assert order[..i] == order;
      }
    }
  }

  // Following dependencies in a topological order only ever moves to the front.
  lemma PathDescends(g: Graph, order: seq<string>, p: seq<string>, k: nat, j: nat)
    requires Topological(g, order) && Path(g, p) && k < |order| && order[k] == p[0] && 0 < j < |p|
    ensures p[j] in order[..k]
  {
    if j > 1 {
      PathDescends(g, order, p, k, j - 1);
      var m :| 0 <= m < k && order[m] == p[j - 1];
      assert p[j] in order[..m];
    }
  }

  function FirstAt(order: seq<string>, x: string): (k: nat)
    requires x in order
    ensures k < |order| && order[k] == x && x !in order[..k]
  {
    if order[0] == x then 0
    else
      var k := 1 + FirstAt(order[1..], x);
      assert order[..k] == [order[0]] + order[1..][..k - 1];
      k
  }

  lemma TopologicalNotCyclic(g: Graph, order: seq<string>)
    requires Topological(g, order) && forall id :: id in g ==> id in order
    ensures !Cyclic(g)
  {
    forall p ensures !Cycle(g, p) {
      if Cycle(g, p) {
        assert p[1] in Deps(g, p[0]);
        PathDescends(g, order, p, FirstAt(order, p[0]), |p| - 1);
      }
    }
  }

  lemma TopologicalKnown(g: Graph, order: seq<string>)
    requires Topological(g, order) && Elements(order) == g.Keys
    ensures Known(g)
  {
    forall id, d | id in g && d in g[id] ensures d in g {
      assert id in Elements(order);
      var i :| 0 <= i < |order| && order[i] == id;
      assert d in order[..i];
      assert d in Elements(order);
    }
  }

  // A task met again on the way down from itself closes a cycle.
  lemma StackCloses(g: Graph, stack: seq<string>, id: string)
    requires Path(g, stack + [id]) && id in stack
    ensures OnCycle(g, id)
  {
    var k :| 0 <= k < |stack| && stack[k] == id;
    var p := stack[k..] + [id];
    forall i | 0 < i < |p| ensures p[i] in Deps(g, p[i - 1]) {
      assert p[i] == (stack + [id])[k + i] && p[i - 1] == (stack + [id])[k + i - 1];
    }
    assert Cycle(g, p);
  }

  ghost predicate OnCycle(g: Graph, id: string) {
    exists p :: Cycle(g, p) && p[0] == id
  }

  lemma PathSnoc(g: Graph, p: seq<string>, d: string)
    requires Path(g, p) && d in Deps(g, p[|p| - 1])
    ensures Path(g, p + [d])
  {
  }
}
