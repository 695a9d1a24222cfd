/**
 Chains of profiles that extend one another: which of them end.
 */
module ProfileChains {
  import opened Json
  import opened Seqs

  // For every known profile, the one it extends.
  type Up = map<string, Option<string>>

  // The chain from `id` reaches a profile that extends nothing within `n` steps,
  // through known profiles only.
  ghost predicate Grounded(up: Up, id: string, n: nat)
    decreases n
  {
    id in up && (up[id].None? || (n > 0 && Grounded(up, up[id].value, n - 1)))
  }

  ghost predicate Ends(up: Up, id: string) {
    exists n: nat :: Grounded(up, id, n)
  }

  lemma {:induction false} GroundedLonger(up: Up, id: string, n: nat, m: nat)
    requires Grounded(up, id, n) && n <= m
    ensures Grounded(up, id, m)
    decreases n
  {
    if up[id].Some? { GroundedLonger(up, up[id].value, n - 1, m - 1); }
  }

  // A chain ends exactly when the chain of its parent does.
  lemma EndsUp(up: Up, id: string)
    requires id in up && up[id].Some?
    ensures Ends(up, id) <==> Ends(up, up[id].value)
  {
    if Ends(up, id) {
      var n: nat :| Grounded(up, id, n);
      assert Grounded(up, up[id].value, n - 1);
    }
    if Ends(up, up[id].value) {
      var n: nat :| Grounded(up, up[id].value, n);
      assert Grounded(up, id, n + 1);
    }
  }

  lemma EndsRoot(up: Up, id: string)
    requires id in up && up[id].None?
    ensures Ends(up, id)
  {
    assert Grounded(up, id, 0);
  }

  // Each profile of the list extends the next.
  ghost predicate Chain(up: Up, c: seq<string>) {
    forall i, j :: 0 <= i && j == i + 1 < |c| ==> Extends(up, c[i], c[j])
  }

  predicate Extends(up: Up, child: string, parent: string) {
    child in up && up[child] == Some(parent)
  }

  lemma {:induction false} GroundedAlong(up: Up, c: seq<string>, n: nat, j: nat)
    requires Chain(up, c) && j < |c| && Grounded(up, c[0], n)
    ensures j <= n && Grounded(up, c[j], n - j)
  {
    if j > 0 {
      GroundedAlong(up, c, n, j - 1);
      assert Extends(up, c[j - 1], c[j]);
    }
  }

  lemma {:induction false} CycleNeverGrounded(up: Up, c: seq<string>, n: nat)
    requires Chain(up, c) && |c| > 1 && c[0] == c[|c| - 1]
    ensures !Grounded(up, c[0], n)
  {
    if Grounded(up, c[0], n) {
      GroundedAlong(up, c, n, |c| - 1);
      CycleNeverGrounded(up, c, n - (|c| - 1));
    }
  }

  // A profile met again on its own chain has no end to it.
  lemma MetAgain(up: Up, stack: seq<string>, id: string)
    requires Chain(up, stack + [id]) && id in stack
    ensures !Ends(up, id)
  {
    var k :| 0 <= k < |stack| && stack[k] == id;
    var c := stack[k..] + [id];
    forall i, j | 0 <= i && j == i + 1 < |c| ensures Extends(up, c[i], c[j]) {
      assert c[i] == (stack + [id])[k + i] && c[j] == (stack + [id])[k + j];
    }
    forall n: nat ensures !Grounded(up, id, n) { CycleNeverGrounded(up, c, n); }
  }

  lemma ChainSnoc(up: Up, c: seq<string>, parent: string)
    requires Chain(up, c) && c != [] && c[|c| - 1] in up && up[c[|c| - 1]] == Some(parent)
    ensures Chain(up, c + [parent])
  {
  }

  // ----- With every parent known, only a circle keeps a chain from ending -----

  ghost predicate AllKnown(up: Up) {
    forall id :: id in up && up[id].Some? ==> up[id].value in up
  }

  ghost predicate Circles(up: Up, c: seq<string>) {
    Chain(up, c) && exists i, j :: 0 <= i < j < |c| && c[i] == c[j]
  }

  ghost predicate RunsInCircle(up: Up, id: string) {
    exists c :: Circles(up, c) && c[0] == id
  }

  lemma CircleNeverEnds(up: Up, c: seq<string>)
    requires Circles(up, c)
    ensures !Ends(up, c[0])
  {
    var i, j :| 0 <= i < j < |c| && c[i] == c[j];
    var d := c[i..j + 1];
    forall a, b | 0 <= a && b == a + 1 < |d| ensures Extends(up, d[a], d[b]) {
      assert d[a] == c[i + a] && d[b] == c[i + b];
    }
    forall n: nat ensures !Grounded(up, c[0], n) {
      if Grounded(up, c[0], n) {
        GroundedAlong(up, c, n, i);
        CycleNeverGrounded(up, d, n - i);
      }
    }
  }

  lemma {:induction false} EndlessCircles(up: Up, c: seq<string>) returns (d: seq<string>)
    requires AllKnown(up) && Chain(up, c) && c != [] && c[|c| - 1] in up && !Ends(up, c[|c| - 1])
    ensures Circles(up, d) && d[0] == c[0]
    decreases up.Keys - Elements(c[..|c| - 1])
  {
    var last := c[|c| - 1];
    if last in c[..|c| - 1] {
      var i :| 0 <= i < |c| - 1 && c[i] == last;
      return c;
    }
    if up[last].None? { EndsRoot(up, last); }
    EndsUp(up, last);
    var more := c + [up[last].value];
    ChainSnoc(up, c, up[last].value);
    assert more[..|more| - 1] == c == c[..|c| - 1] + [last];
    assert Elements(more[..|more| - 1]) == Elements(c[..|c| - 1]) + {last};
    d := EndlessCircles(up, more);
  }

  lemma EndsExactly(up: Up, id: string)
    requires AllKnown(up) && id in up
    ensures Ends(up, id) <==> !RunsInCircle(up, id)
  {
    if RunsInCircle(up, id) {
      var c :| Circles(up, c) && c[0] == id;
      CircleNeverEnds(up, c);
    }
    if !Ends(up, id) {
      var c := EndlessCircles(up, [id]);
    }
  }
}
