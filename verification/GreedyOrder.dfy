/**
 Greedy prerequisite orders: emit again and again the first pending item whose
 needs are met. The result is an order that respects the needs, exists
 whenever any such order does, and is the least of them.
 */
module GreedyOrder {
  import opened Json

  // How an item names itself and what it needs to come before it.
  datatype Needs<!T> = Needs(id: T -> string, needs: T -> set<string>)

  // Each item's needs are met by what is available and by the items before it.
  predicate Fits<T>(n: Needs<T>, available: set<string>, order: seq<T>)
    decreases |order|
  {
    order == []
    || (n.needs(order[0]) <= available && Fits(n, available + {n.id(order[0])}, order[1..]))
  }

  function Remove<T>(s: seq<T>, k: nat): seq<T>
    requires k < |s|
  {
    s[..k] + s[k + 1..]
  }

  function FirstReady<T>(n: Needs<T>, available: set<string>, pending: seq<T>): (r: Option<nat>)
    ensures r.Some? ==> r.value < |pending| && n.needs(pending[r.value]) <= available
    ensures r.Some? ==> forall i :: 0 <= i < r.value ==> !(n.needs(pending[i]) <= available)
    ensures r.None? ==> forall i :: 0 <= i < |pending| ==> !(n.needs(pending[i]) <= available)
  {
    if pending == [] then None
    else if n.needs(pending[0]) <= available then Some(0)
    else
      match FirstReady(n, available, pending[1..])
      case None => None
      case Some(k) => Some(k + 1)
  }

  function Greedy<T>(n: Needs<T>, available: set<string>, pending: seq<T>): Option<seq<T>>
    decreases |pending|
  {
    if pending == [] then Some([])
    else
      match FirstReady(n, available, pending)
      case None => None
      case Some(k) =>
        match Greedy(n, available + {n.id(pending[k])}, Remove(pending, k))
        case None => None
        case Some(rest) => Some([pending[k]] + rest)
  }

  // ----- Soundness -----

  lemma RemoveMultiset<T>(s: seq<T>, k: nat)
    requires k < |s|
    ensures multiset(Remove(s, k)) + multiset{s[k]} == multiset(s)
  {
    assert s == s[..k] + [s[k]] + s[k + 1..];
  }

  lemma {:induction false} GreedySound<T>(n: Needs<T>, available: set<string>, pending: seq<T>)
    requires Greedy(n, available, pending).Some?
    ensures Fits(n, available, Greedy(n, available, pending).value)
    ensures multiset(Greedy(n, available, pending).value) == multiset(pending)
    decreases |pending|
  {
    if pending != [] {
      var k := FirstReady(n, available, pending).value;
      GreedySound(n, available + {n.id(pending[k])}, Remove(pending, k));
      RemoveMultiset(pending, k);
      var order := Greedy(n, available, pending).value;
      assert order[1..] == Greedy(n, available + {n.id(pending[k])}, Remove(pending, k)).value;
    }
  }

  // ----- Completeness -----

  lemma {:induction false} FitsMore<T>(n: Needs<T>, available: set<string>, more: set<string>, order: seq<T>)
    requires Fits(n, available, order) && available <= more
    ensures Fits(n, more, order)
    decreases |order|
  {
    if order != [] {
      FitsMore(n, available + {n.id(order[0])}, more + {n.id(order[0])}, order[1..]);
    }
  }

  lemma RemoveLater<T>(s: seq<T>, m: nat)
    requires 0 < m < |s|
    ensures Remove(s, m) == [s[0]] + Remove(s[1..], m - 1)
  {
    assert s[..m] == [s[0]] + s[1..][..m - 1];
    assert s[1..][m..] == s[m + 1..];
  }

  // An item that is ready now may be moved to the front of any order.
  lemma {:induction false} FitsWithout<T>(n: Needs<T>, available: set<string>, order: seq<T>, m: nat)
    requires Fits(n, available, order) && m < |order| && n.needs(order[m]) <= available
    ensures Fits(n, available + {n.id(order[m])}, Remove(order, m))
    decreases |order|
  {
    if m == 0 {
      assert Remove(order, 0) == order[1..];
    } else {
      FitsWithout(n, available + {n.id(order[0])}, order[1..], m - 1);
      RemoveLater(order, m);
      assert available + {n.id(order[0])} + {n.id(order[m])} == available + {n.id(order[m])} + {n.id(order[0])};
    }
  }

  lemma MemberAt<T>(order: seq<T>, pending: seq<T>, k: nat) returns (m: nat)
    requires multiset(order) == multiset(pending) && k < |pending|
    ensures m < |order| && order[m] == pending[k]
    ensures multiset(Remove(order, m)) == multiset(Remove(pending, k))
  {
    assert pending[k] in multiset(pending);
    assert pending[k] in order;
    m :| 0 <= m < |order| && order[m] == pending[k];
    RemoveMultiset(order, m);
    RemoveMultiset(pending, k);
    assert multiset(Remove(order, m)) == multiset(order) - multiset{order[m]};
    assert multiset(Remove(pending, k)) == multiset(pending) - multiset{pending[k]};
  }

  lemma SomeReady<T>(n: Needs<T>, available: set<string>, pending: seq<T>, order: seq<T>)
    requires Fits(n, available, order) && multiset(order) == multiset(pending) && pending != []
    ensures order != [] && FirstReady(n, available, pending).Some?
  {
    assert |multiset(order)| == |order| && |multiset(pending)| == |pending|;
    assert order[0] in multiset(order);
    assert order[0] in pending;
  }

  lemma {:induction false} GreedyComplete<T>(n: Needs<T>, available: set<string>, pending: seq<T>, order: seq<T>)
    requires Fits(n, available, order) && multiset(order) == multiset(pending)
    ensures Greedy(n, available, pending).Some?
    decreases |pending|
  {
    if pending != [] {
      SomeReady(n, available, pending, order);
      var k := FirstReady(n, available, pending).value;
      var m := MemberAt(order, pending, k);
      FitsWithout(n, available, order, m);
      GreedyComplete(n, available + {n.id(pending[k])}, Remove(pending, k), Remove(order, m));
    }
  }

  // ----- Leastness -----

  ghost predicate Ascending<T>(less: (T, T) -> bool, s: seq<T>) {
    forall i, j :: 0 <= i < j < |s| ==> less(s[i], s[j])
  }

  // At the first place where the two differ, `a` has the lesser item.
  ghost predicate LexLe<T(!new)>(less: (T, T) -> bool, a: seq<T>, b: seq<T>) {
    a == [] || (b != [] && (less(a[0], b[0]) || (a[0] == b[0] && LexLe(less, a[1..], b[1..]))))
  }

  lemma RemoveAscending<T>(less: (T, T) -> bool, s: seq<T>, k: nat)
    requires Ascending(less, s) && k < |s|
    ensures Ascending(less, Remove(s, k))
  {
    var r := Remove(s, k);
    forall i, j | 0 <= i < j < |r| ensures less(r[i], r[j]) {
      var i', j' := if i < k then i else i + 1, if j < k then j else j + 1;
      assert r[i] == s[i'] && r[j] == s[j'];
    }
  }

  lemma SameTail<T>(order: seq<T>, pending: seq<T>, k: nat)
    requires multiset(order) == multiset(pending) && k < |pending| && order != [] && order[0] == pending[k]
    ensures multiset(order[1..]) == multiset(Remove(pending, k))
  {
    RemoveMultiset(pending, k);
    assert order == [order[0]] + order[1..];
    assert multiset(order[1..]) == multiset(order) - multiset{order[0]};
    assert multiset(Remove(pending, k)) == multiset(pending) - multiset{pending[k]};
  }

  // Whatever else an order starts with is ready too, and so comes later in `pending`.
  lemma FirstIsLeast<T>(n: Needs<T>, less: (T, T) -> bool, available: set<string>, pending: seq<T>, x: T)
    requires Ascending(less, pending) && x in pending && n.needs(x) <= available
    ensures FirstReady(n, available, pending).Some?
    ensures var k := FirstReady(n, available, pending).value; x == pending[k] || less(pending[k], x)
  {
    var j :| 0 <= j < |pending| && pending[j] == x;
    assert n.needs(pending[j]) <= available;
  }

  lemma {:induction false} GreedyLeast<T(!new)>(n: Needs<T>, less: (T, T) -> bool, available: set<string>,
                                                pending: seq<T>, order: seq<T>)
    requires Ascending(less, pending)
    requires Fits(n, available, order) && multiset(order) == multiset(pending)
    ensures Greedy(n, available, pending).Some?
    ensures LexLe(less, Greedy(n, available, pending).value, order)
    decreases |pending|
  {
    GreedyComplete(n, available, pending, order);
    if pending != [] {
      SomeReady(n, available, pending, order);
      assert order[0] in multiset(order);
      FirstIsLeast(n, less, available, pending, order[0]);
      var k := FirstReady(n, available, pending).value;
      if order[0] == pending[k] {
        SameTail(order, pending, k);
        RemoveAscending(less, pending, k);
        GreedyLeast(n, less, available + {n.id(pending[k])}, Remove(pending, k), order[1..]);
        assert Greedy(n, available, pending).value[1..]
            == Greedy(n, available + {n.id(pending[k])}, Remove(pending, k)).value;
      }
    }
  }

  lemma {:induction false} LexAntisymmetric<T(!new)>(less: (T, T) -> bool, a: seq<T>, b: seq<T>)
    requires forall x, y :: less(x, y) ==> !less(y, x)
    requires LexLe(less, a, b) && LexLe(less, b, a)
    ensures a == b
  {
    if a != [] && b != [] {
      LexAntisymmetric(less, a[1..], b[1..]);
      assert a == [a[0]] + a[1..] && b == [b[0]] + b[1..];
    }
  }

  // ----- Half-way through a run -----

  // What the rest of a greedy run adds to what is already ordered.
  ghost function Prepend<T>(ordered: seq<T>, rest: Option<seq<T>>): Option<seq<T>> {
    if rest.None? then None else Some(ordered + rest.value)
  }

  lemma PrependNothing<T>(rest: Option<seq<T>>)
    ensures Prepend([], rest) == rest
  {
    if rest.Some? { assert [] + rest.value == rest.value; }
  }

  lemma GreedyStep<T>(n: Needs<T>, available: set<string>, pending: seq<T>, ordered: seq<T>, k: nat)
    requires FirstReady(n, available, pending) == Some(k)
    ensures Prepend(ordered, Greedy(n, available, pending))
            == Prepend(ordered + [pending[k]],
                       Greedy(n, available + {n.id(pending[k])}, Remove(pending, k)))
  {
    var rest := Greedy(n, available + {n.id(pending[k])}, Remove(pending, k));
    if rest.Some? {
      assert ordered + ([pending[k]] + rest.value) == ordered + [pending[k]] + rest.value;
    }
  }
}
