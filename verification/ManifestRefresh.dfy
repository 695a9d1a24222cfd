/**
 The refresh of one manifest text: the array of records first, then one count after another,
 all in place.
 */
module ManifestRefresh {
  import opened Json
  import opened Seqs
  import opened Text
  import opened ArrayScanner
  import opened RecordReader
  import opened ManifestText
  import opened ManifestReadBack
  import opened ManifestCounts
  import opened ManifestMarkers
  import opened ManifestSlots

  datatype Tally = Tally(key: string, n: nat)

  ghost function SetCounts(c: string, tallies: seq<Tally>): Option<string>
    decreases |tallies|
  {
    if tallies == [] then Some(c)
    else
      match ReplaceCount(c, tallies[0].key, tallies[0].n)
      case None => None
      case Some(next) => SetCounts(next, tallies[1..])
  }

  ghost function RefreshText(c: string, key: string, objects: seq<seq<Entry>>, tallies: seq<Tally>): Option<string> {
    match Replace(c, key, ArrayText(objects))
    case None => None
    case Some(next) => SetCounts(next, tallies)
  }

  method RefreshManifestText(c: string, key: string, objects: seq<seq<Entry>>, tallies: seq<Tally>)
    returns (r: Option<string>)
    ensures r == RefreshText(c, key, objects, tallies)
  {
    var rendered := RenderRecords(objects);
    r := ReplaceJsonArray(c, key, rendered);
    if r.None? { return; }
    ghost var start := r.value;
    for i := 0 to |tallies|
      invariant r.Some? && SetCounts(start, tallies) == SetCounts(r.value, tallies[i..])
    {
      assert tallies[i..][0] == tallies[i] && tallies[i..][1..] == tallies[i + 1..];
      r := ReplaceJsonCount(r.value, tallies[i].key, tallies[i].n);
      if r.None? { return; }
    }
  }

  // ----- What the keys have to be

  function KeysOf(tallies: seq<Tally>): seq<string> {
    seq(|tallies|, i requires 0 <= i < |tallies| => tallies[i].key)
  }

  predicate PlainKeys(keys: seq<string>) {
    forall i :: 0 <= i < |keys| ==> PlainKey(keys[i])
  }

  ghost predicate NoFields(objects: seq<seq<Entry>>, keys: seq<string>) {
    forall i :: 0 <= i < |keys| ==> NoField(objects, keys[i])
  }

  /** Plain keys, each once, and no field of a record among them. */
  ghost predicate Proper(key: string, keys: seq<string>, objects: seq<seq<Entry>>) {
    PlainKey(key) && PlainKeys(keys) && Distinct(keys) && NoFields(objects, keys)
  }

  // ----- Two writes commute

  /** The text with the part from `s` to `e` exchanged for `v`. */
  ghost predicate Spliced(c: string, s: nat, e: nat, v: string, r: string)
    decreases s
  {
    && s <= e <= |c|
    && if s == 0 then r == v + c[e..] else r != "" && r[0] == c[0] && Spliced(c[1..], s - 1, e - 1, v, r[1..])
  }

  lemma {:induction false} SplicedIs(c: string, s: nat, e: nat, v: string, r: string)
    requires s <= e <= |c|
    ensures Spliced(c, s, e, v, r) <==> r == c[..s] + v + c[e..]
    decreases s
  {
    if s > 0 {
      SplicedIs(c[1..], s - 1, e - 1, v, if r == "" then "" else r[1..]);
      SpliceTail(c, s, e, v);
      if r != "" { assert r == [r[0]] + r[1..]; }
    }
  }

  lemma SpliceTail(c: string, s: nat, e: nat, v: string)
    requires 0 < s <= e <= |c|
    ensures c[..s] + v + c[e..] == [c[0]] + (c[1..][..s - 1] + v + c[1..][e - 1..])
  {
  }

  lemma EditsCommute(c: string, s: nat, e: nat, v: string, u: nat, w: nat, x: string)
    requires s <= e <= u <= w <= |c|
    ensures var c1, c2 := c[..s] + v + c[e..], c[..u] + x + c[w..];
            c1[..u - (e - s) + |v|] + x + c1[w - (e - s) + |v|..] == c2[..s] + v + c2[e..]
  {
    var c1, c2 := c[..s] + v + c[e..], c[..u] + x + c[w..];
    var du, dw := u - (e - s) + |v|, w - (e - s) + |v|;
    assert c1[..du] == c[..s] + v + c[e..u];
    assert c1[dw..] == c[w..];
    assert c2[..s] == c[..s];
    assert c2[e..] == c[e..u] + x + c[w..];
  }

  /** Two writes, the second behind the first, give one text in either order. */
  lemma SplicesMeet(c: string, s: nat, e: nat, v: string, u: nat, w: nat, x: string,
                    c1: string, c2: string, p: nat, c12: string, c21: string)
    requires e <= u && p == u - (e - s) + |v| && Spliced(c, s, e, v, c1) && Spliced(c, u, w, x, c2)
    requires Spliced(c1, p, p + w - u, x, c12) && Spliced(c2, s, e, v, c21)
    ensures c12 == c21
  {
    SplicedIs(c, s, e, v, c1);
    SplicedIs(c, u, w, x, c2);
    SplicedIs(c1, p, p + w - u, x, c12);
    SplicedIs(c2, s, e, v, c21);
    EditsCommute(c, s, e, v, u, w, x);
  }

  lemma Whole(c: string, s: nat, e: nat)
    requires s <= e <= |c|
    ensures c[..s] + c[s..e] + c[e..] == c
  {
  }

  lemma SpliceParts(c: string, s: nat, e: nat, v: string, r: string)
    requires Spliced(c, s, e, v, r)
    ensures c[..s] + c[s..e] + c[e..] == c && c[..s] + v + c[e..] == r
  {
    Whole(c, s, e);
    SplicedIs(c, s, e, v, r);
  }

  /** Where a part before or behind the exchanged one ends up. */
  ghost predicate Shifted(s: nat, e: nat, v: string, u: nat, w: nat, to: nat) {
    (w <= s && to == u) || (e <= u && to == u - (e - s) + |v|)
  }

  /** First one part is exchanged, then the other, which has moved to `p`. */
  ghost predicate Way(c: string, s: nat, e: nat, v: string, u: nat, w: nat, x: string, c1: string, p: nat, r: string) {
    && s < e && Spliced(c, s, e, v, c1)
    && Shifted(s, e, v, u, w, p) && u < w && Spliced(c1, p, p + w - u, x, r)
  }

  lemma WaysMeet(c: string, s: nat, e: nat, v: string, u: nat, w: nat, x: string,
                 c1: string, p: nat, r: string, c2: string, q: nat, back: string)
    requires Way(c, s, e, v, u, w, x, c1, p, r) && Way(c, u, w, x, s, e, v, c2, q, back)
    ensures r == back
  {
    if e <= u {
      SplicesMeet(c, s, e, v, u, w, x, c1, c2, p, r, back);
    } else {
      SplicesMeet(c, u, w, x, s, e, v, c2, c1, q, back, r);
    }
  }

  lemma CountMoves(c: string, k: string, s: nat, e: nat, v: string, c1: string, l: string, u: nat, w: nat) returns (to: nat)
    requires PlainKey(k) && PlainKey(l) && k != l && AllDigits(v) && Counted(c, k, s, e) && Counted(c, l, u, w)
    requires Spliced(c, s, e, v, c1)
    ensures Counted(c1, l, to, to + w - u) && Shifted(s, e, v, u, w, to)
  {
    SpliceParts(c, s, e, v, c1);
    to := CountKeepsCount(c[..s], c[s..e], v, c[e..], k, l, u, w);
  }

  lemma PutDigits(c: string, k: string, v: string, s: nat, e: nat) returns (r: string)
    requires Counted(c, k, s, e)
    ensures SetDigits(c, k, v) == Some(r) && Spliced(c, s, e, v, r)
  {
    SetDigitsIs(c, k, v, s, e);
    r := c[..s] + v + c[e..];
    SplicedIs(c, s, e, v, r);
  }

  /** The array under the key, from `u` to before `w`. */
  ghost predicate Placed(c: string, key: string, u: nat, w: nat) {
    u < w <= |c| && Located(c, key, u, w - 1)
  }

  lemma PutArray(c: string, key: string, t: string, u: nat, w: nat) returns (r: string)
    requires Placed(c, key, u, w)
    ensures Replace(c, key, t) == Some(r) && Spliced(c, u, w, t, r)
  {
    ReplaceIs(c, key, t, u, w - 1);
    r := c[..u] + t + c[w..];
    SplicedIs(c, u, w, t, r);
  }

  lemma DigitsThenDigits(c: string, k: string, s: nat, e: nat, v: string, l: string, u: nat, w: nat, x: string)
    returns (c1: string, p: nat, r: string)
    requires PlainKey(k) && PlainKey(l) && k != l && AllDigits(v) && Counted(c, k, s, e) && Counted(c, l, u, w)
    ensures SetDigits(c, k, v) == Some(c1) && SetDigits(c1, l, x) == Some(r) && Way(c, s, e, v, u, w, x, c1, p, r)
  {
    c1, p := DigitsFirst(c, k, s, e, v, l, u, w);
    r := PutDigits(c1, l, x, p, p + w - u);
    WayFrom(c, s, e, v, u, w, x, c1, p, r);
  }

  lemma WayFrom(c: string, s: nat, e: nat, v: string, u: nat, w: nat, x: string, c1: string, p: nat, r: string)
    requires s < e && u < w && Spliced(c, s, e, v, c1) && Shifted(s, e, v, u, w, p) && Spliced(c1, p, p + w - u, x, r)
    ensures Way(c, s, e, v, u, w, x, c1, p, r)
  {
  }

  lemma DigitsFirst(c: string, k: string, s: nat, e: nat, v: string, l: string, u: nat, w: nat)
    returns (c1: string, p: nat)
    requires PlainKey(k) && PlainKey(l) && k != l && AllDigits(v) && Counted(c, k, s, e) && Counted(c, l, u, w)
    ensures SetDigits(c, k, v) == Some(c1) && Spliced(c, s, e, v, c1) && s < e && u < w
    ensures Counted(c1, l, p, p + w - u) && Shifted(s, e, v, u, w, p)
  {
    c1 := PutDigits(c, k, v, s, e);
    p := CountMoves(c, k, s, e, v, c1, l, u, w);
  }

  lemma DigitsCommuteAt(c: string, k: string, s: nat, e: nat, v: string, l: string, u: nat, w: nat, x: string)
    returns (c1: string, c2: string, r: string)
    requires PlainKey(k) && PlainKey(l) && k != l && AllDigits(v) && AllDigits(x)
    requires Counted(c, k, s, e) && Counted(c, l, u, w)
    ensures SetDigits(c, k, v) == Some(c1) && SetDigits(c, l, x) == Some(c2)
    ensures SetDigits(c1, l, x) == Some(r) && SetDigits(c2, k, v) == Some(r)
  {
    var p, q, back;
    c1, p, r := DigitsThenDigits(c, k, s, e, v, l, u, w, x);
    c2, q, back := DigitsThenDigits(c, l, u, w, x, k, s, e, v);
    WaysMeet(c, s, e, v, u, w, x, c1, p, r, c2, q, back);
  }

  lemma DigitsCommute(c: string, k: string, v: string, l: string, x: string)
    requires PlainKey(k) && PlainKey(l) && k != l && AllDigits(v) && AllDigits(x)
    requires SetDigits(c, k, v).Some? && SetDigits(c, l, x).Some?
    ensures SetDigits(SetDigits(c, k, v).value, l, x).Some?
    ensures SetDigits(SetDigits(c, k, v).value, l, x) == SetDigits(SetDigits(c, l, x).value, k, v)
  {
    var s: nat, e: nat :| Counted(c, k, s, e);
    var u: nat, w: nat :| Counted(c, l, u, w);
    var c1, c2, r := DigitsCommuteAt(c, k, s, e, v, l, u, w, x);
  }

  lemma DecimalIsDigits(n: nat)
    ensures AllDigits(Decimal(n))
  {
    DecimalDigits(n);
  }

  /** Counts under different keys can be written in either order. */
  lemma CountsCommute(c: string, k: string, n: nat, l: string, m: nat)
    requires PlainKey(k) && PlainKey(l) && k != l
    requires ReplaceCount(c, k, n).Some? && ReplaceCount(c, l, m).Some?
    ensures ReplaceCount(ReplaceCount(c, k, n).value, l, m).Some?
    ensures ReplaceCount(ReplaceCount(c, k, n).value, l, m) == ReplaceCount(ReplaceCount(c, l, m).value, k, n)
  {
    DecimalIsDigits(n);
    DecimalIsDigits(m);
    DigitsCommute(c, k, Decimal(n), l, Decimal(m));
  }

  // ----- The array among the counts

  /** The array under the key, without any of the markers in it. */
  ghost predicate Holds(c: string, key: string, keys: seq<string>, u: nat, w: nat) {
    Placed(c, key, u, w) && forall i :: 0 <= i < |keys| ==> Fenced(c[u..w], keys[i])
  }

  ghost predicate Good(c: string, key: string, keys: seq<string>) {
    exists u: nat, w: nat :: Holds(c, key, keys, u, w)
  }

  lemma TextFenced(objects: seq<seq<Entry>>, key: string)
    requires PlainKey(key) && NoField(objects, key)
    ensures Fenced(ArrayText(objects), key)
  {
    ArrayClean(objects, key);
    RecordsAreArray(objects);
  }

  /** A manifest whose array was just printed is in good shape. */
  lemma PrintedGood(c: string, key: string, objects: seq<seq<Entry>>, keys: seq<string>)
    requires PlainKeys(keys) && NoFields(objects, keys) && Replace(c, key, ArrayText(objects)).Some?
    ensures Good(Replace(c, key, ArrayText(objects)).value, key, keys)
  {
    var start: nat, end: nat :| Located(c, key, start, end);
    var t := ArrayText(objects);
    ReplaceIs(c, key, t, start, end);
    RecordsAreArray(objects);
    LocatedAgain(c, key, start, end, t);
    var once := c[..start] + t + c[end + 1..];
    assert once[start..start + |t|] == t;
    forall i | 0 <= i < |keys| ensures Fenced(t, keys[i]) { TextFenced(objects, keys[i]); }
    assert Holds(once, key, keys, start, start + |t|);
  }

  lemma ArrayMoves(c: string, k: string, s: nat, e: nat, v: string, c1: string, key: string, u: nat, w: nat)
    returns (to: nat)
    requires PlainKey(k) && PlainKey(key) && AllDigits(v) && Spliced(c, s, e, v, c1)
    requires Counted(c, k, s, e) && Placed(c, key, u, w) && Fenced(c[u..w], k)
    ensures Placed(c1, key, to, to + w - u) && Shifted(s, e, v, u, w, to)
  {
    SpliceParts(c, s, e, v, c1);
    to := CountKeepsArray(c[..s], c[s..e], v, c[e..], k, key, u, w - 1);
  }

  lemma SameSlice(c: string, s: nat, e: nat, v: string, c1: string, u: nat, w: nat, to: nat)
    requires Spliced(c, s, e, v, c1) && u <= w <= |c| && Shifted(s, e, v, u, w, to)
    ensures to + w - u <= |c1| && c1[to..to + w - u] == c[u..w]
  {
    SpliceParts(c, s, e, v, c1);
    if w <= s && to == u {
      SliceOfFirst(c[..s], c[s..e], c[e..], u, w);
      SliceOfFirst(c[..s], v, c[e..], u, w);
    } else {
      SliceOfLast(c[..s], c[s..e], c[e..], u, w);
      SliceOfLast(c[..s], v, c[e..], to, to + w - u);
    }
  }

  lemma SliceOfFirst(a: string, x: string, b: string, i: nat, j: nat)
    requires i <= j <= |a|
    ensures (a + x + b)[i..j] == a[i..j]
  {
  }

  lemma SliceOfLast(a: string, x: string, b: string, i: nat, j: nat)
    requires |a| + |x| <= i <= j <= |a| + |x| + |b|
    ensures (a + x + b)[i..j] == b[i - |a| - |x|..j - |a| - |x|]
  {
  }

  lemma DigitsKeepGood(c: string, key: string, keys: seq<string>, k: string, v: string)
    requires PlainKey(key) && PlainKey(k) && k in keys && AllDigits(v) && Good(c, key, keys) && SetDigits(c, k, v).Some?
    ensures Good(SetDigits(c, k, v).value, key, keys)
  {
    var s: nat, e: nat :| Counted(c, k, s, e);
    var u: nat, w: nat :| Holds(c, key, keys, u, w);
    var c1 := PutDigits(c, k, v, s, e);
    var to := ArrayMoves(c, k, s, e, v, c1, key, u, w);
    SameSlice(c, s, e, v, c1, u, w, to);
    assert Holds(c1, key, keys, to, to + w - u);
  }

  /** Writing a count keeps the manifest in good shape. */
  lemma CountKeepsGood(c: string, key: string, keys: seq<string>, k: string, n: nat)
    requires PlainKey(key) && PlainKey(k) && k in keys && Good(c, key, keys) && ReplaceCount(c, k, n).Some?
    ensures Good(ReplaceCount(c, k, n).value, key, keys)
  {
    DecimalIsDigits(n);
    DigitsKeepGood(c, key, keys, k, Decimal(n));
  }

  lemma CountMovesWithArray(c: string, key: string, u: nat, w: nat, t: string, c2: string, k: string, s: nat, e: nat)
    returns (to: nat)
    requires PlainKey(k) && u < w <= |c| && Fenced(c[u..w], k) && Fenced(t, k) && Counted(c, k, s, e)
    requires Spliced(c, u, w, t, c2)
    ensures Counted(c2, k, to, to + e - s) && Shifted(u, w, t, s, e, to)
  {
    SpliceParts(c, u, w, t, c2);
    to := ArrayKeepsCount(c[..u], c[u..w], t, c[w..], k, s, e);
  }

  lemma DigitsThenArray(c: string, k: string, s: nat, e: nat, v: string, key: string, u: nat, w: nat, t: string)
    returns (c1: string, p: nat, r: string)
    requires PlainKey(k) && PlainKey(key) && AllDigits(v)
    requires Counted(c, k, s, e) && Placed(c, key, u, w) && Fenced(c[u..w], k)
    ensures SetDigits(c, k, v) == Some(c1) && Replace(c1, key, t) == Some(r) && Way(c, s, e, v, u, w, t, c1, p, r)
  {
    c1 := PutDigits(c, k, v, s, e);
    p := ArrayMoves(c, k, s, e, v, c1, key, u, w);
    r := PutArray(c1, key, t, p, p + w - u);
  }

  lemma ArrayThenDigits(c: string, k: string, s: nat, e: nat, v: string, key: string, u: nat, w: nat, t: string)
    returns (c2: string, q: nat, r: string)
    requires PlainKey(k) && Fenced(t, k) && Counted(c, k, s, e) && Placed(c, key, u, w) && Fenced(c[u..w], k)
    ensures Replace(c, key, t) == Some(c2) && SetDigits(c2, k, v) == Some(r) && Way(c, u, w, t, s, e, v, c2, q, r)
  {
    c2 := PutArray(c, key, t, u, w);
    q := CountMovesWithArray(c, key, u, w, t, c2, k, s, e);
    r := PutDigits(c2, k, v, q, q + e - s);
  }

  lemma ArrayCommutesAt(c: string, k: string, s: nat, e: nat, v: string, key: string, u: nat, w: nat, t: string)
    returns (c1: string, c2: string, r: string)
    requires PlainKey(k) && PlainKey(key) && AllDigits(v) && Fenced(t, k)
    requires Counted(c, k, s, e) && Placed(c, key, u, w) && Fenced(c[u..w], k)
    ensures SetDigits(c, k, v) == Some(c1) && Replace(c, key, t) == Some(c2)
    ensures Replace(c1, key, t) == Some(r) && SetDigits(c2, k, v) == Some(r)
  {
    var p, q, back;
    c1, p, r := DigitsThenArray(c, k, s, e, v, key, u, w, t);
    c2, q, back := ArrayThenDigits(c, k, s, e, v, key, u, w, t);
    WaysMeet(c, s, e, v, u, w, t, c1, p, r, c2, q, back);
  }

  /** The array and a count can be written in either order. */
  lemma ArrayCommutes(c: string, key: string, keys: seq<string>, k: string, n: nat, objects: seq<seq<Entry>>)
    requires PlainKey(key) && PlainKey(k) && k in keys && Good(c, key, keys) && NoField(objects, k)
    requires ReplaceCount(c, k, n).Some?
    ensures Replace(c, key, ArrayText(objects)).Some?
    ensures ReplaceCount(Replace(c, key, ArrayText(objects)).value, k, n).Some?
    ensures Replace(ReplaceCount(c, k, n).value, key, ArrayText(objects))
            == ReplaceCount(Replace(c, key, ArrayText(objects)).value, k, n)
  {
    var s: nat, e: nat :| Counted(c, k, s, e);
    var u: nat, w: nat :| Holds(c, key, keys, u, w);
    TextFenced(objects, k);
    DecimalIsDigits(n);
    var c1, c2, r := ArrayCommutesAt(c, k, s, e, Decimal(n), key, u, w, ArrayText(objects));
  }

  // ----- A whole refresh

  /** A count under another key can be written before or after the others. */
  lemma {:induction false} CountPasses(c: string, tallies: seq<Tally>, k: string, n: nat)
    requires PlainKeys(KeysOf(tallies)) && PlainKey(k) && k !in KeysOf(tallies)
    requires SetCounts(c, tallies).Some? && ReplaceCount(c, k, n).Some?
    ensures SetCounts(ReplaceCount(c, k, n).value, tallies).Some?
    ensures ReplaceCount(SetCounts(c, tallies).value, k, n) == SetCounts(ReplaceCount(c, k, n).value, tallies)
    decreases |tallies|
  {
    if tallies != [] {
      var first, rest := tallies[0], tallies[1..];
      assert KeysOf(tallies)[0] == first.key && KeysOf(rest) == KeysOf(tallies)[1..];
      CountsCommute(c, k, n, first.key, first.n);
      CountPasses(ReplaceCount(c, first.key, first.n).value, rest, k, n);
    }
  }

  lemma KeysTail(tallies: seq<Tally>)
    requires tallies != []
    ensures KeysOf(tallies)[0] == tallies[0].key && KeysOf(tallies[1..]) == KeysOf(tallies)[1..]
    ensures Distinct(KeysOf(tallies)) ==> Distinct(KeysOf(tallies[1..])) && tallies[0].key !in KeysOf(tallies[1..])
  {
  }

  /** Later counts under the same keys win. */
  lemma {:induction false} LastCountsWin(c: string, first: seq<Tally>, second: seq<Tally>)
    requires PlainKeys(KeysOf(first)) && Distinct(KeysOf(first)) && KeysOf(first) == KeysOf(second)
    requires SetCounts(c, first).Some?
    ensures SetCounts(c, second).Some? && SetCounts(SetCounts(c, first).value, second) == SetCounts(c, second)
    decreases |first|
  {
    assert |first| == |KeysOf(first)| == |second|;
    if first != [] {
      KeysTail(first);
      KeysTail(second);
      var k, v, w := first[0].key, first[0].n, second[0].n;
      var c1 := ReplaceCount(c, k, v).value;
      CountTwice(c, k, v, w);
      CountDefined(c, k, v, w);
      CountPasses(c1, first[1..], k, w);
      LastCountsWin(ReplaceCount(c, k, w).value, first[1..], second[1..]);
    }
  }

  lemma CountDefined(c: string, k: string, n: nat, m: nat)
    requires ReplaceCount(c, k, n).Some?
    ensures ReplaceCount(c, k, m).Some?
  {
  }

  /** The array can be written before or after the counts. */
  lemma {:induction false} ArrayPasses(c: string, key: string, keys: seq<string>, tallies: seq<Tally>,
                                       objects: seq<seq<Entry>>)
    requires PlainKey(key) && PlainKeys(keys) && NoFields(objects, keys) && Good(c, key, keys)
    requires (forall i :: 0 <= i < |tallies| ==> tallies[i].key in keys) && SetCounts(c, tallies).Some?
    ensures Replace(c, key, ArrayText(objects)).Some?
    ensures SetCounts(Replace(c, key, ArrayText(objects)).value, tallies).Some?
    ensures Replace(SetCounts(c, tallies).value, key, ArrayText(objects))
            == SetCounts(Replace(c, key, ArrayText(objects)).value, tallies)
    decreases |tallies|
  {
    if tallies == [] {
      GoodReplaces(c, key, keys, ArrayText(objects));
    } else {
      var k, n := tallies[0].key, tallies[0].n;
      assert k in keys;
      KeyIn(keys, objects, k);
      CountKeepsGood(c, key, keys, k, n);
      ArrayCommutes(c, key, keys, k, n, objects);
      ArrayPasses(ReplaceCount(c, k, n).value, key, keys, tallies[1..], objects);
    }
  }

  lemma KeyIn(keys: seq<string>, objects: seq<seq<Entry>>, k: string)
    requires k in keys && PlainKeys(keys) && NoFields(objects, keys)
    ensures PlainKey(k) && NoField(objects, k)
  {
  }

  lemma GoodReplaces(c: string, key: string, keys: seq<string>, t: string)
    requires Good(c, key, keys)
    ensures Replace(c, key, t).Some?
  {
    var u: nat, w: nat :| Holds(c, key, keys, u, w);
    ReplaceIs(c, key, t, u, w - 1);
  }

  /** A second refresh wins over the first, whatever the first one wrote; so the first can be
      made exactly when the second can. */
  lemma LastRefreshWins(c: string, key: string, a: seq<seq<Entry>>, first: seq<Tally>,
                        b: seq<seq<Entry>>, second: seq<Tally>)
    requires Proper(key, KeysOf(first), a) && NoFields(b, KeysOf(first)) && KeysOf(first) == KeysOf(second)
    requires RefreshText(c, key, a, first).Some?
    ensures RefreshText(c, key, b, second).Some?
    ensures RefreshText(RefreshText(c, key, a, first).value, key, b, second) == RefreshText(c, key, b, second)
  {
    var keys := KeysOf(first);
    var c1 := Replace(c, key, ArrayText(a)).value;
    PrintedGood(c, key, a, keys);
    RecordsAreArray(a);
    ReplaceReplace(c, key, ArrayText(a), ArrayText(b));
    forall i | 0 <= i < |first| ensures first[i].key in keys { assert keys[i] == first[i].key; }
    ArrayPasses(c1, key, keys, first, b);
    LastCountsWin(Replace(c, key, ArrayText(b)).value, first, second);
  }

  /** A second refresh with the same records and counts changes nothing. */
  lemma RefreshIdempotent(c: string, key: string, objects: seq<seq<Entry>>, tallies: seq<Tally>)
    requires Proper(key, KeysOf(tallies), objects) && RefreshText(c, key, objects, tallies).Some?
    ensures var once := RefreshText(c, key, objects, tallies).value;
            RefreshText(once, key, objects, tallies) == Some(once)
  {
    LastRefreshWins(c, key, objects, tallies, objects, tallies);
  }

  // ----- What can be read back

  lemma SpliceSame(c: string, s: nat, e: nat, v: string)
    requires s <= e <= |c| && c[..s] + v + c[e..] == c
    ensures c[s..e] == v
  {
    assert |v| == e - s;
    assert c[s..e] == (c[..s] + v + c[e..])[s..s + |v|];
  }

  /** A count that can be written again without a change is the one that is read. */
  lemma CountStands(c: string, k: string, n: nat)
    requires ReplaceCount(c, k, n) == Some(c)
    ensures exists s: nat, e: nat :: Counted(c, k, s, e) && ReadDigits(c[s..], 0) == (n, c[e..])
  {
    var s: nat, e: nat :| Counted(c, k, s, e);
    ReplaceCountIs(c, k, n, s, e);
    SpliceSame(c, s, e, Decimal(n));
    SliceThen(c, s, e, Decimal(n));
    DecimalBack(n, c[e..]);
  }

  lemma SliceThen(c: string, s: nat, e: nat, v: string)
    requires s <= e <= |c| && c[s..e] == v
    ensures c[s..] == v + c[e..]
  {
  }

  /** An array that can be written again without a change is the one that is read. */
  lemma ArrayStands(c: string, key: string, objects: seq<seq<Entry>>)
    requires Replace(c, key, ArrayText(objects)) == Some(c)
    ensures exists u: nat, w: nat :: Located(c, key, u, w) && ReadArray(c[u..]) == Some((objects, c[w + 1..]))
  {
    var u: nat, w: nat :| Located(c, key, u, w);
    ReplaceIs(c, key, ArrayText(objects), u, w);
    SpliceSame(c, u, w + 1, ArrayText(objects));
    SliceThen(c, u, w + 1, ArrayText(objects));
    ArrayBack(objects, c[w + 1..]);
  }

  /** Each count stands once all are written. */
  lemma {:induction false} CountsStand(c: string, tallies: seq<Tally>, i: nat)
    requires PlainKeys(KeysOf(tallies)) && Distinct(KeysOf(tallies)) && SetCounts(c, tallies).Some? && i < |tallies|
    ensures ReplaceCount(SetCounts(c, tallies).value, tallies[i].key, tallies[i].n) == SetCounts(c, tallies)
    decreases |tallies|
  {
    KeysTail(tallies);
    var k, n := tallies[0].key, tallies[0].n;
    var next := ReplaceCount(c, k, n).value;
    if i == 0 {
      CountTwice(c, k, n, n);
      CountPasses(next, tallies[1..], k, n);
    } else {
      CountsStand(next, tallies[1..], i - 1);
    }
  }

  /** So does the array. */
  lemma RecordsStand(c: string, key: string, objects: seq<seq<Entry>>, tallies: seq<Tally>)
    requires Proper(key, KeysOf(tallies), objects) && RefreshText(c, key, objects, tallies).Some?
    ensures Replace(RefreshText(c, key, objects, tallies).value, key, ArrayText(objects))
            == RefreshText(c, key, objects, tallies)
  {
    var keys := KeysOf(tallies);
    PrintedGood(c, key, objects, keys);
    RecordsAreArray(objects);
    ReplaceReplace(c, key, ArrayText(objects), ArrayText(objects));
    forall i | 0 <= i < |tallies| ensures tallies[i].key in keys { assert keys[i] == tallies[i].key; }
    ArrayPasses(Replace(c, key, ArrayText(objects)).value, key, keys, tallies, objects);
  }

  /** After a refresh a JSON reader finds the records in the array and each count under its key. */
  lemma RefreshReads(c: string, key: string, objects: seq<seq<Entry>>, tallies: seq<Tally>, i: nat)
    requires Proper(key, KeysOf(tallies), objects) && RefreshText(c, key, objects, tallies).Some?
    ensures var r := RefreshText(c, key, objects, tallies).value;
            && (exists u: nat, w: nat :: Located(r, key, u, w) && ReadArray(r[u..]) == Some((objects, r[w + 1..])))
            && (i < |tallies| ==>
                  exists s: nat, e: nat :: Counted(r, tallies[i].key, s, e) && ReadDigits(r[s..], 0) == (tallies[i].n, r[e..]))
  {
    var r := RefreshText(c, key, objects, tallies).value;
    RecordsStand(c, key, objects, tallies);
    ArrayStands(r, key, objects);
    if i < |tallies| {
      CountsStand(Replace(c, key, ArrayText(objects)).value, tallies, i);
      CountStands(r, tallies[i].key, tallies[i].n);
    }
  }
}
