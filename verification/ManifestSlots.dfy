/**
 The places of one manifest text that a refresh writes to, the array and the counts, and that
 writing to one of them only moves the others.
 */
module ManifestSlots {
  import opened Json
  import opened Text
  import opened ArrayScanner
  import opened RecordReader
  import opened ManifestText
  import opened ManifestReadBack
  import opened ManifestCounts
  import opened ManifestMarkers

  // ----- Exchanging a block of text

  /** No occurrence of the pattern overlaps the block. */
  ghost predicate Clear(t: string, pattern: string, lo: nat, hi: nat) {
    forall i: nat :: Matches(t, pattern, i) ==> i + |pattern| <= lo || hi <= i
  }

  lemma MatchBefore(a: string, x: string, y: string, b: string, pattern: string, i: nat)
    requires i + |pattern| <= |a|
    ensures Matches(a + x + b, pattern, i) == Matches(a + y + b, pattern, i)
  {
    MatchesSame(a + x + b, a + y + b, pattern, |a|, i);
  }

  lemma MatchBehind(a: string, x: string, y: string, b: string, pattern: string, i: nat)
    requires |a| + |x| <= i && Matches(a + x + b, pattern, i)
    ensures Matches(a + y + b, pattern, i - |x| + |y|)
  {
    MatchesMove(a + x + b, i, a + y + b, i - |x| + |y|, pattern);
  }

  /** The first occurrence stays or moves with the text around it. */
  lemma FindMoved(a: string, x: string, y: string, b: string, pattern: string, at: nat)
    requires First(a + x + b, pattern, at) && pattern != "" && (at + |pattern| <= |a| || |a| + |x| <= at)
    requires Clear(a + y + b, pattern, |a|, |a| + |y|)
    ensures First(a + y + b, pattern, if at + |pattern| <= |a| then at else at - |x| + |y|)
  {
    var t := a + y + b;
    var to := if at + |pattern| <= |a| then at else at - |x| + |y|;
    if at + |pattern| <= |a| { MatchBefore(a, x, y, b, pattern, at); } else { MatchBehind(a, x, y, b, pattern, at); }
    forall i | 0 <= i < to ensures !Matches(t, pattern, i) {
      if Matches(t, pattern, i) {
        if i + |pattern| <= |a| {
          MatchBefore(a, x, y, b, pattern, i);
        } else {
          MatchBehind(a, y, x, b, pattern, i);
        }
      }
    }
  }

  ghost predicate AllDigits(d: string) {
    d != "" && forall i :: 0 <= i < |d| ==> Digit(d[i])
  }

  lemma DigitsClear(a: string, d: string, b: string, pattern: string)
    requires AllDigits(d) && pattern != "" && forall i :: 0 <= i < |pattern| ==> !Digit(pattern[i])
    ensures Clear(a + d + b, pattern, |a|, |a| + |d|)
  {
    var t := a + d + b;
    forall i: nat | Matches(t, pattern, i) ensures i + |pattern| <= |a| || |a| + |d| <= i {
      if i < |a| + |d| && |a| < i + |pattern| {
        var j := if i < |a| then |a| else i;
        CharAt(t, pattern, i, j - i);
      }
    }
  }

  /** A bracketed text without the marker inside. */
  ghost predicate Fenced(x: string, key: string) {
    |x| >= 2 && x[0] == '[' && x[|x| - 1] == ']' && Clean(x, key)
  }

  lemma FencedClear(a: string, x: string, b: string, key: string)
    requires Fenced(x, key) && PlainKey(key)
    ensures Clear(a + x + b, CountMarker(key), |a|, |a| + |x|)
  {
    var t, m := a + x + b, CountMarker(key);
    MarkerChars(key);
    forall i: nat | Matches(t, m, i) ensures i + |m| <= |a| || |a| + |x| <= i {
      if i < |a| < i + |m| {
        CharAt(t, m, i, |a| - i);
      } else if i < |a| + |x| < i + |m| {
        CharAt(t, m, i, |a| + |x| - 1 - i);
      } else if |a| <= i && i + |m| <= |a| + |x| {
        MatchesMove(t, i, x, i - |a|, m);
      }
    }
  }

  // ----- Writing a count

  lemma MarkerNoDigit(key: string)
    requires PlainKey(key)
    ensures forall i :: 0 <= i < |CountMarker(key)| ==> !Digit(CountMarker(key)[i])
    ensures forall i :: 0 <= i < |Marker(key)| ==> !Digit(Marker(key)[i])
  {
    MarkerChars(key);
    assert Marker(key) == CountMarker(key) + "[";
  }

  lemma DigitsBefore(a: string, x: string, y: string, b: string, s: nat, e: nat)
    requires Digits(a + x + b, s, e) && e <= |a| && (e == |a| ==> x != "" && y != "" && !Digit(y[0]))
    ensures Digits(a + y + b, s, e)
  {
    var t, u := a + x + b, a + y + b;
    forall i | s <= i < e ensures Digit(u[i]) { assert t[i] == u[i]; }
    if e < |a| { assert t[e] == u[e]; }
  }

  lemma DigitsBehind(a: string, x: string, y: string, b: string, s: nat, e: nat)
    requires Digits(a + x + b, s, e) && |a| + |x| <= s
    ensures Digits(a + y + b, s - |x| + |y|, e - |x| + |y|)
  {
    var t, u := a + x + b, a + y + b;
    forall i | s - |x| + |y| <= i < e - |x| + |y| ensures Digit(u[i]) { assert u[i] == t[i + |x| - |y|]; }
    if e < |t| { assert u[e - |x| + |y|] == t[e]; }
  }

  /** A run of digits that starts before a place without one ends before it. */
  lemma DigitsStop(t: string, s: nat, e: nat, at: nat)
    requires Digits(t, s, e) && s <= at < |t| && !Digit(t[at])
    ensures e <= at
  {
  }

  /** Two markers that end at one place are the same. */
  lemma MarkersApart(t: string, k: string, l: string, s: nat)
    requires PlainKey(k) && PlainKey(l) && |CountMarker(k)| <= s && |CountMarker(l)| <= s
    requires Matches(t, CountMarker(k), s - |CountMarker(k)|) && Matches(t, CountMarker(l), s - |CountMarker(l)|)
    ensures k == l
  {
    MarkerChars(k);
    MarkerChars(l);
    if |k| < |l| {
      ShorterMarker(t, k, l, s);
    } else if |l| < |k| {
      ShorterMarker(t, l, k, s);
    } else {
      forall i | 0 <= i < |k| ensures k[i] == l[i] {
        CharAt(t, CountMarker(k), s - |CountMarker(k)|, i + 1);
        CharAt(t, CountMarker(l), s - |CountMarker(l)|, i + 1);
      }
    }
  }

  lemma ShorterMarker(t: string, k: string, l: string, s: nat)
    requires PlainKey(k) && PlainKey(l) && |CountMarker(l)| <= s && |k| < |l|
    requires Matches(t, CountMarker(k), s - |CountMarker(k)|)
    ensures !Matches(t, CountMarker(l), s - |CountMarker(l)|)
  {
    MarkerChars(k);
    MarkerChars(l);
    var q := s - |CountMarker(k)|;
    CharAt(t, CountMarker(k), q, 0);
    if Matches(t, CountMarker(l), s - |CountMarker(l)|) {
      CharAt(t, CountMarker(l), s - |CountMarker(l)|, |l| - |k|);
    }
  }

  /** A pattern without digits stays or moves along when digits change. */
  lemma FirstMoved(a: string, x: string, y: string, b: string, pattern: string, at: nat)
    requires AllDigits(x) && AllDigits(y) && pattern != "" && forall i :: 0 <= i < |pattern| ==> !Digit(pattern[i])
    requires First(a + x + b, pattern, at)
    ensures || (at + |pattern| <= |a| && First(a + y + b, pattern, at))
            || (|a| + |x| <= at && First(a + y + b, pattern, at - |x| + |y|))
  {
    DigitsClear(a, x, b, pattern);
    DigitsClear(a, y, b, pattern);
    FindMoved(a, x, y, b, pattern, at);
  }

  lemma CountedFirst(t: string, k: string, s: nat, e: nat)
    ensures Counted(t, k, s, e) <==>
            |CountMarker(k)| <= s && First(t, CountMarker(k), s - |CountMarker(k)|) && Digits(t, s, e)
  {
    if |CountMarker(k)| <= s { FirstFromStart(t, CountMarker(k), s - |CountMarker(k)|); }
  }

  /** The place before a count holds no digit. */
  lemma SpaceBefore(t: string, k: string, s: nat, e: nat)
    requires PlainKey(k) && Counted(t, k, s, e)
    ensures 0 < s < |t| && !Digit(t[s - 1])
  {
    var n := CountMarker(k);
    MarkerChars(k);
    CountedFirst(t, k, s, e);
    CharAt(t, n, s - |n|, |n| - 1);
  }

  lemma CountBefore(a: string, x: string, y: string, b: string, l: string, u: nat, w: nat)
    requires AllDigits(x) && AllDigits(y) && PlainKey(l) && Counted(a + x + b, l, u, w) && w < |a|
    ensures Counted(a + y + b, l, u, w)
  {
    MarkerNoDigit(l);
    CountedFirst(a + x + b, l, u, w);
    FirstMoved(a, x, y, b, CountMarker(l), u - |CountMarker(l)|);
    DigitsBefore(a, x, y, b, u, w);
    CountedFirst(a + y + b, l, u, w);
  }

  lemma CountBehind(a: string, x: string, y: string, b: string, l: string, u: nat, w: nat)
    requires AllDigits(x) && AllDigits(y) && PlainKey(l) && Counted(a + x + b, l, u, w) && |a| + |x| < u
    ensures Counted(a + y + b, l, u - |x| + |y|, w - |x| + |y|)
  {
    MarkerNoDigit(l);
    CountedFirst(a + x + b, l, u, w);
    FirstMoved(a, x, y, b, CountMarker(l), u - |CountMarker(l)|);
    DigitsBehind(a, x, y, b, u, w);
    CountedFirst(a + y + b, l, u - |x| + |y|, w - |x| + |y|);
  }

  /** Two counts lie apart. */
  lemma CountsApart(t: string, k: string, s: nat, e: nat, l: string, u: nat, w: nat)
    requires PlainKey(k) && PlainKey(l) && k != l && Counted(t, k, s, e) && Counted(t, l, u, w) && u <= s
    ensures w < s
  {
    CountedFirst(t, k, s, e);
    CountedFirst(t, l, u, w);
    if u == s { MarkersApart(t, k, l, u); }
    SpaceBefore(t, k, s, e);
    DigitsStop(t, u, w, s - 1);
  }

  /** Writing one count leaves another where it is or moves it along. */
  lemma CountKeepsCount(a: string, x: string, y: string, b: string, k: string, l: string, u: nat, w: nat)
    returns (to: nat)
    requires PlainKey(k) && PlainKey(l) && k != l && AllDigits(y)
    requires Counted(a + x + b, k, |a|, |a| + |x|) && Counted(a + x + b, l, u, w)
    ensures Counted(a + y + b, l, to, to + w - u)
    ensures (w <= |a| && to == u) || (|a| + |x| <= u && to == u - |x| + |y|)
  {
    DigitBlock(a, x, b);
    if u <= |a| {
      CountsApart(a + x + b, k, |a|, |a| + |x|, l, u, w);
      CountBefore(a, x, y, b, l, u, w);
      to := u;
    } else {
      CountsApart(a + x + b, l, u, w, k, |a|, |a| + |x|);
      CountBehind(a, x, y, b, l, u, w);
      to := u - |x| + |y|;
    }
  }

  lemma DigitBlock(a: string, x: string, b: string)
    requires Digits(a + x + b, |a|, |a| + |x|)
    ensures AllDigits(x)
  {
    forall i | 0 <= i < |x| ensures Digit(x[i]) { assert (a + x + b)[|a| + i] == x[i]; }
  }

  // ----- Counts and the array

  lemma ClosesPrefix(t: string, u: string, start: nat, end: nat)
    requires Closes(t, start, end) && end < |u| && t[..end + 1] == u[..end + 1]
    ensures Closes(u, start, end)
  {
    forall i | start <= i <= end ensures t[i] == u[i] { assert t[..end + 1][i] == u[..end + 1][i]; }
    assert t[start..end] == u[start..end];
  }

  lemma ClosesSuffix(t: string, u: string, start: nat, end: nat, to: nat)
    requires Closes(t, start, end) && to <= |u| && t[start..] == u[to..]
    ensures Closes(u, to, end - start + to)
  {
    assert t[start..end] == t[start..][..end - start] == u[to..][..end - start] == u[to..end - start + to];
    assert t[end] == t[start..][end - start] == u[to..][end - start];
  }

  lemma LocatedBracket(t: string, key: string, start: nat, end: nat)
    requires Located(t, key, start, end)
    ensures t[start] == '[' && t[end] == ']' && start < end
    ensures |Marker(key)| <= start + 1 && First(t, Marker(key), start + 1 - |Marker(key)|)
  {
    var m := Marker(key);
    FirstFromStart(t, m, start + 1 - |m|);
    CharAt(t, m, start + 1 - |m|, |m| - 1);
  }

  lemma LocatedFirst(t: string, key: string, u: nat, w: nat)
    requires |Marker(key)| <= u + 1 && First(t, Marker(key), u + 1 - |Marker(key)|) && Closes(t, u, w)
    ensures Located(t, key, u, w)
  {
    FirstFromStart(t, Marker(key), u + 1 - |Marker(key)|);
  }

  lemma FenceHolds(t: string, u: nat, w: nat, k: string)
    requires u <= w < |t| && Fenced(t[u..w + 1], k) && PlainKey(k)
    ensures Clear(t, CountMarker(k), u, w + 1)
  {
    assert t[..u] + t[u..w + 1] + t[w + 1..] == t;
    FencedClear(t[..u], t[u..w + 1], t[w + 1..], k);
  }

  /** A count lies before or behind the array, marker and all. */
  lemma CountOutside(t: string, k: string, s: nat, e: nat, key: string, u: nat, w: nat)
    requires PlainKey(k) && Counted(t, k, s, e) && Located(t, key, u, w) && Fenced(t[u..w + 1], k)
    ensures e <= u || w < s - |CountMarker(k)|
  {
    LocatedBracket(t, key, u, w);
    FenceHolds(t, u, w, k);
    CountedFirst(t, k, s, e);
    if s <= u { DigitsStop(t, s, e, u); }
  }

  lemma ArrayBehind(a: string, x: string, y: string, b: string, key: string, u: nat, w: nat)
    requires PlainKey(key) && AllDigits(x) && AllDigits(y) && Located(a + x + b, key, u, w) && |a| + |x| <= u
    ensures Located(a + y + b, key, u - |x| + |y|, w - |x| + |y|)
  {
    MarkerNoDigit(key);
    LocatedBracket(a + x + b, key, u, w);
    FirstMoved(a, x, y, b, Marker(key), u + 1 - |Marker(key)|);
    BehindSame(a, x, y, b, u);
    ClosesSuffix(a + x + b, a + y + b, u, w, u - |x| + |y|);
    LocatedFirst(a + y + b, key, u - |x| + |y|, w - |x| + |y|);
  }

  lemma BehindSame(a: string, x: string, y: string, b: string, u: nat)
    requires |a| + |x| <= u <= |a| + |x| + |b|
    ensures (a + x + b)[u..] == (a + y + b)[u - |x| + |y|..]
  {
  }

  lemma ArrayBefore(a: string, x: string, y: string, b: string, key: string, u: nat, w: nat)
    requires PlainKey(key) && AllDigits(x) && AllDigits(y) && Located(a + x + b, key, u, w) && w < |a|
    ensures Located(a + y + b, key, u, w)
  {
    MarkerNoDigit(key);
    LocatedBracket(a + x + b, key, u, w);
    FirstMoved(a, x, y, b, Marker(key), u + 1 - |Marker(key)|);
    BeforeSame(a, x, y, b, w + 1);
    ClosesPrefix(a + x + b, a + y + b, u, w);
    LocatedFirst(a + y + b, key, u, w);
  }

  lemma BeforeSame(a: string, x: string, y: string, b: string, u: nat)
    requires u <= |a|
    ensures (a + x + b)[..u] == (a + y + b)[..u]
  {
  }

  /** Writing a count leaves the array as it is, or moves it along. */
  lemma CountKeepsArray(a: string, x: string, y: string, b: string, k: string, key: string, u: nat, w: nat)
    returns (to: nat)
    requires PlainKey(k) && PlainKey(key) && AllDigits(y)
    requires Counted(a + x + b, k, |a|, |a| + |x|) && Located(a + x + b, key, u, w)
    requires Fenced((a + x + b)[u..w + 1], k)
    ensures Located(a + y + b, key, to, to + w - u)
    ensures (w < |a| && to == u) || (|a| + |x| <= u && to == u - |x| + |y|)
  {
    DigitBlock(a, x, b);
    CountOutside(a + x + b, k, |a|, |a| + |x|, key, u, w);
    if |a| + |x| <= u {
      to := u - |x| + |y|;
      ArrayBehind(a, x, y, b, key, u, w);
    } else {
      to := u;
      ArrayBefore(a, x, y, b, key, u, w);
    }
  }

  lemma DigitsEnd(a: string, x: string, y: string, b: string, s: nat, e: nat)
    requires x != [] && !Digit(x[0]) && Digits(a + x + b, s, e) && s <= |a| && y != [] && !Digit(y[0])
    ensures e <= |a| && Digits(a + y + b, s, e)
  {
    assert (a + x + b)[|a|] == x[0];
    DigitsStop(a + x + b, s, e, |a|);
    DigitsBefore(a, x, y, b, s, e);
  }

  /** Writing the array leaves a count where it is or moves it along. */
  lemma ArrayKeepsCount(a: string, x: string, y: string, b: string, k: string, s: nat, e: nat) returns (to: nat)
    requires PlainKey(k) && Fenced(x, k) && Fenced(y, k) && Counted(a + x + b, k, s, e)
    ensures Counted(a + y + b, k, to, to + e - s)
    ensures (e <= |a| && to == s) || (|a| + |x| <= s && to == s - |x| + |y|)
  {
    var m := CountMarker(k);
    FencedClear(a, x, b, k);
    FencedClear(a, y, b, k);
    CountedFirst(a + x + b, k, s, e);
    FindMoved(a, x, y, b, m, s - |m|);
    if s <= |a| {
      DigitsEnd(a, x, y, b, s, e);
      to := s;
    } else {
      DigitsBehind(a, x, y, b, s, e);
      to := s - |x| + |y|;
    }
    CountedFirst(a + y + b, k, to, to + e - s);
  }
}
