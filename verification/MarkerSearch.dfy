/** The chunked search for private-key markers of supply-chain/check-material.py. */
module MarkerSearch {
  import opened Bytes
  import opened Text

  /** `marker in content`. */
  ghost predicate Occurs(marker: seq<byte>, content: seq<byte>) {
    exists i: nat :: Matches(content, marker, i)
  }

  ghost predicate AnyOccurs(markers: seq<seq<byte>>, content: seq<byte>) {
    exists k :: 0 <= k < |markers| && Occurs(markers[k], content)
  }

  function Longest(markers: seq<seq<byte>>): (n: nat)
    ensures forall k :: 0 <= k < |markers| ==> |markers[k]| <= n
  {
    if markers == [] then 0
    else
      var rest := Longest(markers[1..]);
      assert forall k :: 1 <= k < |markers| ==> markers[k] == markers[1..][k - 1];
      if |markers[0]| > rest then |markers[0]| else rest
  }

  /** The slice `window[-n:]`; a slice from minus zero is the whole window. */
  function Tail(window: seq<byte>, n: nat): seq<byte> {
    if n == 0 || |window| <= n then window else window[|window| - n..]
  }

  function Whole(chunks: seq<seq<byte>>): seq<byte> {
    if chunks == [] then [] else Whole(chunks[..|chunks| - 1]) + chunks[|chunks| - 1]
  }

  /** An occurrence that ends in the new chunk starts in what was kept, because what was kept
      is one byte short of the longest marker. */
  lemma WindowSeesAll(seen: seq<byte>, chunk: seq<byte>, marker: seq<byte>, n: nat)
    requires 0 < |marker| <= n + 1
    ensures Occurs(marker, seen + chunk) <==> Occurs(marker, seen) || Occurs(marker, Tail(seen, n) + chunk)
  {
    if i: nat :| Matches(seen + chunk, marker, i) {
      InSeenOrWindow(seen, chunk, marker, n, i);
    }
    if i: nat :| Matches(seen, marker, i) {
      MatchesMove(seen, i, seen + chunk, i, marker);
    }
    if i: nat :| Matches(Tail(seen, n) + chunk, marker, i) {
      MatchesMove(Tail(seen, n) + chunk, i, seen + chunk, i + |seen| - |Tail(seen, n)|, marker);
    }
  }

  lemma InSeenOrWindow(seen: seq<byte>, chunk: seq<byte>, marker: seq<byte>, n: nat, i: nat)
    requires 0 < |marker| <= n + 1 && Matches(seen + chunk, marker, i)
    ensures Occurs(marker, seen) || Occurs(marker, Tail(seen, n) + chunk)
  {
    if i + |marker| <= |seen| {
      MatchesMove(seen + chunk, i, seen, i, marker);
    } else {
      MatchesMove(seen + chunk, i, Tail(seen, n) + chunk, i - (|seen| - |Tail(seen, n)|), marker);
    }
  }

  lemma TailOfTail(seen: seq<byte>, chunk: seq<byte>, n: nat)
    ensures Tail(Tail(seen, n) + chunk, n) == Tail(seen + chunk, n)
  {
    var kept := Tail(seen, n);
    assert kept + chunk == (seen + chunk)[|seen| - |kept|..];
  }

  lemma Monotone(seen: seq<byte>, more: seq<byte>, markers: seq<seq<byte>>)
    requires AnyOccurs(markers, seen)
    ensures AnyOccurs(markers, seen + more)
  {
    var k :| 0 <= k < |markers| && Occurs(markers[k], seen);
    var i: nat :| Matches(seen, markers[k], i);
    MatchesMove(seen, i, seen + more, i, markers[k]);
  }

  lemma WindowSeesAny(seen: seq<byte>, chunk: seq<byte>, markers: seq<seq<byte>>, n: nat)
    requires forall k :: 0 <= k < |markers| ==> 0 < |markers[k]| <= n + 1
    ensures AnyOccurs(markers, seen + chunk) <==> AnyOccurs(markers, seen) || AnyOccurs(markers, Tail(seen, n) + chunk)
  {
    forall k | 0 <= k < |markers|
      ensures Occurs(markers[k], seen + chunk) <==> Occurs(markers[k], seen) || Occurs(markers[k], Tail(seen, n) + chunk)
    {
      WindowSeesAll(seen, chunk, markers[k], n);
    }
  }

  method FindAny(markers: seq<seq<byte>>, window: seq<byte>) returns (found: bool)
    ensures found <==> AnyOccurs(markers, window)
  {
    for k := 0 to |markers|
      invariant forall j :: 0 <= j < k ==> !Occurs(markers[j], window)
    {
      if Find(window, markers[k], 0).Some? { return true; }
    }
    return false;
  }

  lemma {:induction false} JoinedPrefix(chunks: seq<seq<byte>>, i: nat)
    requires i <= |chunks|
    ensures exists more :: Whole(chunks) == Whole(chunks[..i]) + more
    decreases |chunks| - i
  {
    if i == |chunks| {
      assert chunks[..i] == chunks && Whole(chunks) == Whole(chunks[..i]) + [];
    } else {
      JoinedPrefix(chunks, i + 1);
      var more :| Whole(chunks) == Whole(chunks[..i + 1]) + more;
      assert chunks[..i + 1][..i] == chunks[..i];
      assert Whole(chunks) == Whole(chunks[..i]) + (chunks[i] + more);
    }
  }

  /** `contains_private_marker`, for any way of reading the file in pieces: searching window by
      window finds a marker exactly when the whole content holds one. */
  method ContainsPrivateMarker(chunks: seq<seq<byte>>, markers: seq<seq<byte>>) returns (found: bool)
    requires forall k :: 0 <= k < |markers| ==> markers[k] != []
    ensures found <==> AnyOccurs(markers, Whole(chunks))
  {
    var n := if Longest(markers) == 0 then 0 else Longest(markers) - 1;
    var overlap: seq<byte> := [];
    for i := 0 to |chunks|
      invariant overlap == Tail(Whole(chunks[..i]), n)
      invariant !AnyOccurs(markers, Whole(chunks[..i]))
    {
      ghost var seen := Whole(chunks[..i]);
      assert chunks[..i + 1][..i] == chunks[..i];
      var window := overlap + chunks[i];
      WindowSeesAny(seen, chunks[i], markers, n);
      TailOfTail(seen, chunks[i], n);
      var hit := FindAny(markers, window);
      if hit {
        JoinedPrefix(chunks, i + 1);
        ghost var more :| Whole(chunks) == Whole(chunks[..i + 1]) + more;
        Monotone(Whole(chunks[..i + 1]), more, markers);
        return true;
      }
      overlap := Tail(window, n);
    }
    assert chunks[..|chunks|] == chunks;
    return false;
  }
}
