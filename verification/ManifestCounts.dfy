/**
 The counts of a manifest: the digits under a key, replaced in place.
 */
module ManifestCounts {
  import opened Json
  import opened Text
  import opened RecordReader
  import opened ManifestText
  import opened ManifestReadBack

  function CountMarker(key: string): string {
    "\"" + key + "\": "
  }

  ghost predicate Digits(t: string, start: nat, end: nat) {
    && start < end <= |t|
    && (forall i :: start <= i < end ==> Digit(t[i]))
    && (end < |t| ==> !Digit(t[end]))
  }

  /** The digits under the first occurrence of the key. */
  ghost predicate Counted(contents: string, key: string, start: nat, end: nat) {
    && |CountMarker(key)| <= start
    && FirstFrom(contents, CountMarker(key), 0, start - |CountMarker(key)|)
    && Digits(contents, start, end)
  }

  ghost function SetDigits(contents: string, key: string, digits: string): Option<string> {
    if exists start: nat, end: nat :: Counted(contents, key, start, end) then
      var start: nat, end: nat :| Counted(contents, key, start, end);
      Some(contents[..start] + digits + contents[end..])
    else None
  }

  ghost function ReplaceCount(contents: string, key: string, n: nat): Option<string> {
    SetDigits(contents, key, Decimal(n))
  }

  lemma DigitsOnce(t: string, start: nat, e: nat, f: nat)
    requires Digits(t, start, e) && Digits(t, start, f)
    ensures e == f
  {
  }

  lemma SetDigitsIs(contents: string, key: string, digits: string, start: nat, end: nat)
    requires Counted(contents, key, start, end)
    ensures SetDigits(contents, key, digits) == Some(contents[..start] + digits + contents[end..])
  {
    forall s: nat, e: nat | Counted(contents, key, s, e) ensures s == start && e == end {
      FirstFromStart(contents, CountMarker(key), s - |CountMarker(key)|);
      FirstFromStart(contents, CountMarker(key), start - |CountMarker(key)|);
      DigitsOnce(contents, start, e, end);
    }
  }

  lemma ReplaceCountIs(contents: string, key: string, n: nat, start: nat, end: nat)
    requires Counted(contents, key, start, end)
    ensures ReplaceCount(contents, key, n) == Some(contents[..start] + Decimal(n) + contents[end..])
  {
    SetDigitsIs(contents, key, Decimal(n), start, end);
  }

  method ReplaceJsonCount(contents: string, key: string, n: nat) returns (r: Option<string>)
    ensures r == ReplaceCount(contents, key, n)
  {
    var found := Find(contents, CountMarker(key), 0);
    forall at: nat ensures FirstFrom(contents, CountMarker(key), 0, at) <==> found == Some(at) {
      FirstFromStart(contents, CountMarker(key), at);
    }
    if found.None? { return None; }
    var start := found.value + |CountMarker(key)|;
    var end := start;
    while end < |contents| && Digit(contents[end])
      invariant start <= end <= |contents|
      invariant forall i :: start <= i < end ==> Digit(contents[i])
    {
      end := end + 1;
    }
    if end == start {
      assert forall e: nat :: Digits(contents, start, e) ==> Digit(contents[start]);
      return None;
    }
    ReplaceCountIs(contents, key, n, start, end);
    r := Some(contents[..start] + Decimal(n) + contents[end..]);
  }

  lemma {:induction false} DecimalDigits(n: nat)
    ensures Decimal(n) != "" && forall i :: 0 <= i < |Decimal(n)| ==> Digit(Decimal(n)[i])
  {
    if n >= 10 { DecimalDigits(n / 10); }
  }

  lemma DigitsAgain(front: string, digits: string, rest: string)
    requires NoDigit(rest) && digits != "" && forall i :: 0 <= i < |digits| ==> Digit(digits[i])
    ensures Digits(front + digits + rest, |front|, |front| + |digits|)
  {
  }

  lemma CountedAgain(contents: string, key: string, start: nat, end: nat, n: nat)
    requires Counted(contents, key, start, end)
    ensures Counted(contents[..start] + Decimal(n) + contents[end..], key, start, start + |Decimal(n)|)
  {
    DecimalDigits(n);
    DigitsAgain(contents[..start], Decimal(n), contents[end..]);
    var updated := contents[..start] + Decimal(n) + contents[end..];
    assert contents[..start] == updated[..start];
    FirstFromStart(contents, CountMarker(key), start - |CountMarker(key)|);
    FirstSame(contents, updated, CountMarker(key), start - |CountMarker(key)|, start);
    FirstFromStart(updated, CountMarker(key), start - |CountMarker(key)|);
  }

  /** The count that was put in place is what a reader finds there, before the old rest. */
  lemma CountReads(contents: string, key: string, start: nat, end: nat, n: nat)
    requires Counted(contents, key, start, end)
    ensures var updated := ReplaceCount(contents, key, n);
            && updated.Some? && start <= |updated.value| && updated.value[..start] == contents[..start]
            && ReadDigits(updated.value[start..], 0) == (n, contents[end..])
  {
    ReplaceCountIs(contents, key, n, start, end);
    DecimalBack(n, contents[end..]);
    assert (contents[..start] + Decimal(n) + contents[end..])[start..] == Decimal(n) + contents[end..];
  }

  /** A second count wins over the first. */
  lemma CountTwice(contents: string, key: string, first: nat, second: nat)
    requires ReplaceCount(contents, key, first).Some?
    ensures ReplaceCount(ReplaceCount(contents, key, first).value, key, second) == ReplaceCount(contents, key, second)
  {
    var start: nat, end: nat :| Counted(contents, key, start, end);
    ReplaceCountIs(contents, key, first, start, end);
    ReplaceCountIs(contents, key, second, start, end);
    CountedAgain(contents, key, start, end, first);
    var once := contents[..start] + Decimal(first) + contents[end..];
    ReplaceCountIs(once, key, second, start, start + |Decimal(first)|);
    assert once[..start] == contents[..start];
    assert once[start + |Decimal(first)|..] == contents[end..];
  }
}
