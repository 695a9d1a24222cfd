/**
 Sequences whose elements carry a key: the set of keys, and when no key repeats.
 */
module Keyed {
  function Keys<T>(key: T -> string, s: seq<T>): set<string> {
    set i | 0 <= i < |s| :: key(s[i])
  }

  ghost predicate DistinctBy<T>(key: T -> string, s: seq<T>) {
    forall i, j :: 0 <= i < j < |s| ==> key(s[i]) != key(s[j])
  }

  lemma KeyMember<T>(key: T -> string, s: seq<T>, x: T)
    requires x in s
    ensures key(x) in Keys(key, s)
  {
    var i :| 0 <= i < |s| && s[i] == x;
    assert key(s[i]) == key(x);
  }

  lemma KeysConcat<T>(key: T -> string, a: seq<T>, b: seq<T>)
    ensures Keys(key, a + b) == Keys(key, a) + Keys(key, b)
  {
    forall x | x in Keys(key, a) + Keys(key, b) ensures x in Keys(key, a + b) {
      if x in Keys(key, a) {
        var i :| 0 <= i < |a| && key(a[i]) == x;
        assert key((a + b)[i]) == x;
      } else {
        var i :| 0 <= i < |b| && key(b[i]) == x;
        assert key((a + b)[|a| + i]) == x;
      }
    }
    forall x | x in Keys(key, a + b) ensures x in Keys(key, a) + Keys(key, b) {
      var i :| 0 <= i < |a + b| && key((a + b)[i]) == x;
      if i < |a| { assert key(a[i]) == x; } else { assert key(b[i - |a|]) == x; }
    }
  }

  lemma KeysSnoc<T>(key: T -> string, s: seq<T>, x: T)
    ensures Keys(key, s + [x]) == Keys(key, s) + {key(x)}
  {
    KeysConcat(key, s, [x]);
    assert key([x][0]) == key(x);
  }

  lemma DistinctSnoc<T>(key: T -> string, s: seq<T>, x: T)
    ensures DistinctBy(key, s + [x]) <==> DistinctBy(key, s) && key(x) !in Keys(key, s)
  {
    if DistinctBy(key, s + [x]) {
      forall i, j | 0 <= i < j < |s| ensures key(s[i]) != key(s[j]) {
        assert s[i] == (s + [x])[i] && s[j] == (s + [x])[j];
      }
      forall i | 0 <= i < |s| ensures key(s[i]) != key(x) {
        assert s[i] == (s + [x])[i] && x == (s + [x])[|s|];
      }
    }
    if DistinctBy(key, s) && key(x) !in Keys(key, s) {
      forall i | 0 <= i < |s| ensures key(s[i]) != key(x) { assert key(s[i]) in Keys(key, s); }
    }
  }

  // There are as many keys as elements exactly when no key repeats.
  lemma {:induction false} KeysBound<T>(key: T -> string, s: seq<T>)
    ensures |Keys(key, s)| <= |s|
    ensures |Keys(key, s)| == |s| <==> DistinctBy(key, s)
  {
    if s != [] {
      var front, last := s[..|s| - 1], s[|s| - 1];
      assert s == front + [last];
      KeysBound(key, front);
      KeysSnoc(key, front, last);
      DistinctSnoc(key, front, last);
      if key(last) in Keys(key, front) {
        assert Keys(key, s) == Keys(key, front);
      } else {
        assert |Keys(key, s)| == |Keys(key, front)| + 1;
      }
    }
  }

  lemma SubsetSize(a: set<string>, b: set<string>)
    requires a <= b
    ensures |a| <= |b|
    ensures |a| == |b| ==> a == b
  {
    assert b == a + (b - a);
    if |a| == |b| { assert |b - a| == 0; }
  }

  lemma KeysWithin<T>(key: T -> string, a: seq<T>, b: seq<T>)
    requires forall x :: x in a ==> x in b
    ensures Keys(key, a) <= Keys(key, b)
  {
    forall k | k in Keys(key, a) ensures k in Keys(key, b) {
      var i :| 0 <= i < |a| && key(a[i]) == k;
      assert a[i] in b;
      KeyMember(key, b, a[i]);
    }
  }

  // Rearranging elements keeps their keys, repeated or not.
  lemma KeysPermuted<T>(key: T -> string, a: seq<T>, b: seq<T>)
    requires multiset(a) == multiset(b)
    ensures Keys(key, a) == Keys(key, b) && (DistinctBy(key, a) <==> DistinctBy(key, b))
  {
    forall x ensures x in a <==> x in b { assert x in multiset(a) <==> x in multiset(b); }
    KeysWithin(key, a, b);
    KeysWithin(key, b, a);
    assert |a| == |multiset(a)| == |multiset(b)| == |b|;
    KeysBound(key, a);
    KeysBound(key, b);
  }
}
