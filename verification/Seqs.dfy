/** Sequences as lists of elements: what they hold, and whether anything repeats. */
module Seqs {
  function Elements<T>(xs: seq<T>): set<T> {
    set x | x in xs
  }

  predicate Distinct<T(==)>(xs: seq<T>) {
    forall i, j :: 0 <= i < j < |xs| ==> xs[i] != xs[j]
  }

  lemma DistinctSnoc<T>(front: seq<T>, last: T)
    requires last !in front
    ensures Distinct(front + [last]) <==> Distinct(front)
  {
    var xs := front + [last];
    if Distinct(xs) {
      forall i, j | 0 <= i < j < |front| ensures front[i] != front[j] {
        assert xs[i] == front[i] && xs[j] == front[j];
      }
    }
  }

  lemma {:induction false} ElementsBound<T>(xs: seq<T>)
    ensures |Elements(xs)| <= |xs|
    ensures |Elements(xs)| == |xs| <==> Distinct(xs)
  {
    if xs != [] {
      var front, last := xs[..|xs| - 1], xs[|xs| - 1];
      ElementsBound(front);
      assert xs == front + [last];
      assert Elements(xs) == Elements(front) + {last};
      if last in front {
        assert Elements(xs) == Elements(front);
        var i :| 0 <= i < |front| && front[i] == last;
        assert xs[i] == xs[|xs| - 1];
      } else {
        assert |Elements(xs)| == |Elements(front)| + 1;
        DistinctSnoc(front, last);
      }
    }
  }

  lemma SameElements<T>(a: seq<T>, b: seq<T>)
    requires multiset(a) == multiset(b)
    ensures Elements(a) == Elements(b) && |a| == |b| && (Distinct(a) <==> Distinct(b))
  {
    forall x ensures x in a <==> x in b { assert x in multiset(a) <==> x in multiset(b); }
    assert |multiset(a)| == |a| && |multiset(b)| == |b|;
    ElementsBound(a);
    ElementsBound(b);
  }

  /** Some list of the elements of a set, without repetition. */
  lemma {:induction false} Enumerated<T>(s: set<T>) returns (xs: seq<T>)
    ensures Distinct(xs) && Elements(xs) == s
    decreases |s|
  {
    if s == {} {
      xs := [];
    } else {
      var x :| x in s;
      var rest := Enumerated(s - {x});
      assert x !in Elements(rest);
      DistinctSnoc(rest, x);
      xs := rest + [x];
      assert Elements(xs) == Elements(rest) + {x};
    }
  }
}
