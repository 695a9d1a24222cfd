/** Searching in text. */
module Text {
  import opened Json

  predicate Digit(c: char) {
    '0' <= c <= '9'
  }

  predicate Matches<T(==)>(s: seq<T>, pattern: seq<T>, i: nat) {
    i + |pattern| <= |s| && s[i..i + |pattern|] == pattern
  }

  /** The first occurrence of the pattern at or after `from`. */
  function Find<T(==)>(s: seq<T>, pattern: seq<T>, from: nat): (r: Option<nat>)
    ensures r.Some? ==> from <= r.value && Matches(s, pattern, r.value)
    ensures r.Some? ==> forall i :: from <= i < r.value ==> !Matches(s, pattern, i)
    ensures r.None? ==> forall i :: from <= i ==> !Matches(s, pattern, i)
    decreases |s| - from
  {
    if from + |pattern| > |s| then None
    else if s[from..from + |pattern|] == pattern then Some(from)
    else Find(s, pattern, from + 1)
  }

  /** A prefix without the first character of the pattern does not hide an occurrence. */
  lemma FindAfter<T>(before: seq<T>, pattern: seq<T>, after: seq<T>)
    requires |pattern| > 0 && pattern[0] !in before
    ensures Find(before + pattern + after, pattern, 0) == Some(|before|)
  {
    var s := before + pattern + after;
    assert Matches(s, pattern, |before|);
    forall i | 0 <= i < |before| ensures !Matches(s, pattern, i) {
      assert s[i] == before[i];
    }
  }

  /** An occurrence moves to any text that has the same characters there. */
  lemma MatchesMove<T>(s: seq<T>, i: nat, t: seq<T>, j: nat, pattern: seq<T>)
    requires Matches(s, pattern, i) && j + |pattern| <= |t|
    requires forall x :: j <= x < j + |pattern| ==> t[x] == s[x - j + i]
    ensures Matches(t, pattern, j)
  {
    assert t[j..j + |pattern|] == s[i..i + |pattern|];
  }

  ghost predicate First<T>(s: seq<T>, pattern: seq<T>, at: nat) {
    Matches(s, pattern, at) && forall i :: 0 <= i < at ==> !Matches(s, pattern, i)
  }

  lemma FindFirst<T>(s: seq<T>, pattern: seq<T>, at: nat)
    ensures Find(s, pattern, 0) == Some(at) <==> First(s, pattern, at)
  {
  }

  /** The first occurrence at or after `from` is at `at`. */
  ghost predicate FirstFrom<T>(s: seq<T>, pattern: seq<T>, from: nat, at: nat)
    decreases at - from
  {
    && from <= at
    && if from == at then Matches(s, pattern, at) else !Matches(s, pattern, from) && FirstFrom(s, pattern, from + 1, at)
  }

  lemma {:induction false} FirstFromFind<T>(s: seq<T>, pattern: seq<T>, from: nat, at: nat)
    ensures FirstFrom(s, pattern, from, at) <==> Find(s, pattern, from) == Some(at)
    decreases if from <= at then at - from else 0
  {
    if from < at { FirstFromFind(s, pattern, from + 1, at); }
  }

  lemma FirstFromStart<T>(s: seq<T>, pattern: seq<T>, at: nat)
    ensures FirstFrom(s, pattern, 0, at) <==> First(s, pattern, at)
    ensures FirstFrom(s, pattern, 0, at) <==> Find(s, pattern, 0) == Some(at)
  {
    FirstFromFind(s, pattern, 0, at);
    FindFirst(s, pattern, at);
  }

  lemma MatchesSame<T>(s: seq<T>, t: seq<T>, pattern: seq<T>, end: nat, i: nat)
    requires end <= |s| && end <= |t| && s[..end] == t[..end] && i + |pattern| <= end
    ensures Matches(s, pattern, i) == Matches(t, pattern, i)
  {
    forall x | 0 <= x < end ensures s[x] == t[x] { assert s[..end][x] == t[..end][x]; }
    if Matches(s, pattern, i) { MatchesMove(s, i, t, i, pattern); }
    if Matches(t, pattern, i) { MatchesMove(t, i, s, i, pattern); }
  }

  /** A text that agrees up to the end of the first occurrence has it there, too. */
  lemma FirstSame<T>(s: seq<T>, t: seq<T>, pattern: seq<T>, at: nat, end: nat)
    requires First(s, pattern, at) && at + |pattern| == end <= |t| && s[..end] == t[..end]
    ensures First(t, pattern, at)
  {
    MatchesSame(s, t, pattern, end, at);
    forall i | 0 <= i < at ensures !Matches(t, pattern, i) { MatchesSame(s, t, pattern, end, i); }
  }

  // ---- Splitting

  // The pieces between separators; one more piece than there are separators.
  function SplitOn(s: string, sep: char): seq<string> {
    if s == [] then [""]
    else
      var rest := SplitOn(s[1..], sep);
      if s[0] == sep then [""] + rest
      else if rest == [] then [[s[0]]]
      else [[s[0]] + rest[0]] + rest[1..]
  }

  lemma {:induction false} SplitWhole(s: string, sep: char)
    requires sep !in s
    ensures SplitOn(s, sep) == [s]
  {
    if s != [] {
      SplitWhole(s[1..], sep);
      assert s == [s[0]] + s[1..];
    }
  }

  lemma {:induction false} SplitFirst(a: string, b: string, sep: char)
    requires sep !in a
    ensures SplitOn(a + [sep] + b, sep) == [a] + SplitOn(b, sep)
  {
    var s := a + [sep] + b;
    if a == [] {
      assert s[1..] == b;
    } else {
      SplitFirst(a[1..], b, sep);
      assert s[1..] == a[1..] + [sep] + b;
      assert a == [a[0]] + a[1..];
    }
  }

  function Joined(parts: seq<string>, sep: string): string {
    if parts == [] then ""
    else if |parts| == 1 then parts[0]
    else Joined(parts[..|parts| - 1], sep) + sep + parts[|parts| - 1]
  }

  lemma {:induction false} JoinedFirst(parts: seq<string>, sep: string)
    requires |parts| > 1
    ensures Joined(parts, sep) == parts[0] + (sep + Joined(parts[1..], sep))
  {
    var front, last := parts[..|parts| - 1], parts[|parts| - 1];
    if |parts| > 2 {
      JoinedFirst(front, sep);
      assert front[1..] == parts[1..][..|parts| - 2];
      Associate(parts[0], sep, Joined(front[1..], sep), sep + last);
    }
  }

  lemma Associate(a: string, b: string, c: string, d: string)
    ensures a + (b + c) + d == a + (b + (c + d))
  {
  }

  lemma {:induction false} SplitJoin(s: string, sep: char)
    ensures SplitOn(s, sep) != [] && Joined(SplitOn(s, sep), [sep]) == s
  {
    if s != [] {
      SplitJoin(s[1..], sep);
      var rest := SplitOn(s[1..], sep);
      assert s == [s[0]] + s[1..];
      if s[0] == sep {
        JoinedFirst([""] + rest, [sep]);
        assert ([""] + rest)[1..] == rest;
      } else {
        var parts := [[s[0]] + rest[0]] + rest[1..];
        assert parts[1..] == rest[1..];
        if |rest| > 1 {
          JoinedFirst(parts, [sep]);
          JoinedFirst(rest, [sep]);
        }
      }
    }
  }
}
