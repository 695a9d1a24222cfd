/**
 Managed regions: stretches of a source file between two marker lines, whose
 content is generated and whose opening marker records a digest of it.
 */
module ManagedRegions {
  import opened Json
  import opened Text
  import opened Lines

  const HASH := " hash="

  function Begin(id: string): string {
    "omnius:managed-begin id=" + id
  }

  function End(id: string): string {
    "omnius:managed-end id=" + id
  }

  predicate Contains(line: string, needle: string) {
    Find(line, needle, 0).Some?
  }

  predicate Hex(c: char) {
    '0' <= c <= '9' || 'a' <= c <= 'f' || 'A' <= c <= 'F'
  }

  predicate AllHex(s: string) {
    forall i :: 0 <= i < |s| ==> Hex(s[i])
  }

  predicate IsDigest(s: string) {
    |s| == 64 && AllHex(s)
  }

  ghost predicate IsHash(sha256: string -> string) {
    forall s :: IsDigest(sha256(s))
  }

  // ----- The digest in an opening marker -----

  // Where the recorded digest begins.
  function HashAt(line: string): Option<nat> {
    match Find(line, HASH, 0)
    case None => None
    case Some(i) => Some(i + |HASH|)
  }

  predicate StampedAt(line: string, h: nat) {
    HashAt(line) == Some(h) && h + 64 <= |line| && AllHex(line[h..h + 64])
  }

  predicate Stamped(line: string) {
    HashAt(line).Some? && StampedAt(line, HashAt(line).value)
  }

  function Recorded(line: string): string
    requires Stamped(line)
  {
    line[HashAt(line).value..HashAt(line).value + 64]
  }

  function Stamp(line: string, digest: string): string
    requires Stamped(line)
  {
    line[..HashAt(line).value] + digest + line[HashAt(line).value + 64..]
  }

  // ----- Regions -----

  ghost predicate OnlyAt(lines: seq<string>, needle: string, k: nat) {
    && k < |lines| && Contains(lines[k], needle)
    && forall i {:trigger Contains(lines[i], needle)} :: 0 <= i < |lines| && i != k ==> !Contains(lines[i], needle)
  }

  ghost predicate Absent(lines: seq<string>, needle: string) {
    forall i {:trigger Contains(lines[i], needle)} :: 0 <= i < |lines| ==> !Contains(lines[i], needle)
  }

  // One opening marker with a digest, and one closing marker below it.
  ghost predicate Delimited(lines: seq<string>, begin: string, end: string, b: nat, e: nat) {
    OnlyAt(lines, begin, b) && OnlyAt(lines, end, e) && b < e && Stamped(lines[b])
  }

  ghost predicate Region(lines: seq<string>, id: string, b: nat, e: nat) {
    Delimited(lines, Begin(id), End(id), b, e)
  }

  function RegionText(lines: seq<string>, b: nat, e: nat): string
    requires b < e <= |lines|
  {
    Concat(lines[b + 1..e])
  }

  function Rewritten(lines: seq<string>, b: nat, e: nat, content: string, digest: string): seq<string>
    requires b < e <= |lines| && Stamped(lines[b])
  {
    lines[..b] + [Stamp(lines[b], digest)] + Split(content) + lines[e..]
  }

  predicate EndsLine(content: string) {
    content != "" && content[|content| - 1] == '\n'
  }

  // ----- The rewriting code -----

  // The one line with the needle, and where it begins and ends in the text.
  ghost predicate MarkedAt(lines: seq<string>, needle: string, span: (nat, nat), k: nat) {
    OnlyAt(lines, needle, k) && span == (Offset(lines, k), Offset(lines, k + 1))
  }

  method MarkerLine(source: string, needle: string) returns (r: Option<(nat, nat)>)
    ensures r.Some? ==> exists k: nat :: MarkedAt(Split(source), needle, r.value, k)
    ensures r.None? ==> forall k: nat :: !OnlyAt(Split(source), needle, k)
  {
    var lines := Split(source);
    var found: Option<(nat, nat)>, offset := None, 0;
    ghost var at := 0;
    for i := 0 to |lines|
      invariant offset == Offset(lines, i)
      invariant found.None? ==> Absent(lines[..i], needle)
      invariant found.Some? ==> at < i && found.value == (Offset(lines, at), Offset(lines, at + 1))
                                && OnlyAt(lines[..i], needle, at)
    {
      OffsetNext(lines, i);
      assert lines[..i + 1] == lines[..i] + [lines[i]];
      if Contains(lines[i], needle) {
        if found.Some? {
          assert lines[at] == lines[..i][at];
          return None;
        }
        found := Some((offset, offset + |lines[i]|));
        at := i;
      }
      offset := offset + |lines[i]|;
    }
    assert lines[..|lines|] == lines;
    assert found.Some? ==> MarkedAt(lines, needle, found.value, at);
    return found;
  }

  method ReplaceManagedRegion(sha256: string -> string, source: string, id: string, content: string)
    returns (r: Option<string>)
    ensures r == Replace(sha256, source, id, content)
  {
    if !EndsLine(content) { return None; }
    var begin := MarkerLine(source, Begin(id));
    if begin.None? { return None; }
    var end := MarkerLine(source, End(id));
    if end.None? { return None; }
    ghost var lines := Split(source);
    ghost var b: nat :| MarkedAt(lines, Begin(id), begin.value, b);
    ghost var e: nat :| MarkedAt(lines, End(id), end.value, e);
    r := Rewrite(source, begin.value, end.value, content, sha256(content), lines, b, e);
    if r.Some? {
      ReplaceIs(source, Begin(id), End(id), content, sha256(content), b, e);
    } else {
      forall b': nat, e': nat ensures !Region(lines, id, b', e') {}
    }
  }

  // The text work, once the marker lines are found.
  method Rewrite(source: string, begin: (nat, nat), end: (nat, nat), content: string, digest: string,
                 ghost lines: seq<string>, ghost b: nat, ghost e: nat) returns (r: Option<string>)
    requires lines == Split(source) && b < |lines| && e < |lines|
    requires begin == (Offset(lines, b), Offset(lines, b + 1)) && end == (Offset(lines, e), Offset(lines, e + 1))
    ensures r.Some? <==> b < e && Stamped(lines[b])
    ensures r.Some? ==> r.value == Concat(Rewritten(lines, b, e, content, digest))
  {
    SplitConcat(source);
    SplitProper(source);
    OrderOf(lines, b, e);
    OffsetNext(lines, b);
    Around(lines, b);
    Around(lines, e);
    if begin.1 > end.0 { return None; }
    var line := source[begin.0..begin.1];
    var hash := Find(line, HASH, 0);
    if hash.None? { return None; }
    var offset := hash.value + |HASH|;
    if offset + 64 > |line| || !AllHex(line[offset..offset + 64]) { return None; }
    r := Some(Render(source[..begin.0], line, offset, digest, content, source[end.0..]));
    RewrittenText(lines, b, e, content, digest);
  }

  function Render(before: string, line: string, offset: nat, digest: string, content: string, after: string): string
    requires offset + 64 <= |line|
  {
    before + line[..offset] + digest + line[offset + 64..] + content + after
  }

  // The rewriting, in terms of lines.
  ghost function ReplaceBetween(source: string, begin: string, end: string, content: string, digest: string)
    : Option<string>
  {
    var lines := Split(source);
    if EndsLine(content) && exists b: nat, e: nat :: Delimited(lines, begin, end, b, e) then
      var b: nat, e: nat :| Delimited(lines, begin, end, b, e);
      Some(Concat(Rewritten(lines, b, e, content, digest)))
    else None
  }

  ghost function Replace(sha256: string -> string, source: string, id: string, content: string): Option<string> {
    ReplaceBetween(source, Begin(id), End(id), content, sha256(content))
  }

  lemma ReplaceIs(source: string, begin: string, end: string, content: string, digest: string, b: nat, e: nat)
    requires EndsLine(content) && Delimited(Split(source), begin, end, b, e)
    ensures ReplaceBetween(source, begin, end, content, digest)
            == Some(Concat(Rewritten(Split(source), b, e, content, digest)))
  {
    forall b': nat, e': nat | Delimited(Split(source), begin, end, b', e') ensures b' == b && e' == e {}
  }

  lemma OrderOf(lines: seq<string>, b: nat, e: nat)
    requires Proper(lines) && b < |lines| && e < |lines|
    ensures Offset(lines, b + 1) <= Offset(lines, e) <==> b < e
  {
    if b < e { OffsetMonotone(lines, b + 1, e); } else { OffsetMonotone(lines, e, b + 1); }
  }

  lemma RewrittenText(lines: seq<string>, b: nat, e: nat, content: string, digest: string)
    requires b < e <= |lines| && Stamped(lines[b])
    ensures var h := HashAt(lines[b]).value;
            Render(Concat(lines[..b]), lines[b], h, digest, content, Concat(lines[e..]))
            == Concat(Rewritten(lines, b, e, content, digest))
  {
    var stamped := Stamp(lines[b], digest);
    ConcatAppend(lines[..b] + [stamped] + Split(content), lines[e..]);
    ConcatAppend(lines[..b] + [stamped], Split(content));
    ConcatAppend(lines[..b], [stamped]);
    ConcatOne(stamped);
    SplitConcat(content);
    var h := HashAt(lines[b]).value;
    assert Concat(lines[..b]) + (lines[b][..h] + digest + lines[b][h + 64..])
        == Concat(lines[..b]) + lines[b][..h] + digest + lines[b][h + 64..];
  }

  // ----- A new digest neither makes nor breaks a marker -----

  // A needle that cannot reach across the start of a digest: every '=' in it follows a
  // 'd', and it does not begin like a digest.
  predicate Clean(needle: string) {
    && needle != "" && !Hex(needle[0])
    && forall p :: 0 <= p < |needle| && needle[p] == '=' ==> p > 0 && needle[p - 1] == 'd'
  }

  lemma MarkersClean(id: string)
    requires '=' !in id
    ensures Clean(Begin(id)) && Clean(End(id))
  {
    var b, e := "omnius:managed-begin id=", "omnius:managed-end id=";
    assert forall p :: 0 <= p < |b| && b[p] == '=' ==> p == 23 && b[22] == 'd';
    assert forall p :: 0 <= p < |e| && e[p] == '=' ==> p == 21 && e[20] == 'd';
    assert Begin(id)[0] == b[0] == 'o' && End(id)[0] == e[0] == 'o';
    assert Begin(id)[22] == b[22] && End(id)[20] == e[20];
  }

  // Seen from the digest at `h`, an occurrence lies wholly before or wholly after.
  lemma Apart(line: string, h: nat, needle: string, i: nat)
    requires 2 <= h && h + 64 <= |line| && line[h - 2] == 'h' && line[h - 1] == '=' && AllHex(line[h..h + 64])
    requires Clean(needle) && Matches(line, needle, i)
    ensures i + |needle| <= h || h + 64 <= i
  {
    assert forall x :: i <= x < i + |needle| ==> line[x] == needle[x - i];
    assert forall x :: h <= x < h + 64 ==> Hex(line[x]) by {
      forall x | h <= x < h + 64 ensures Hex(line[x]) { assert line[x] == line[h..h + 64][x - h]; }
    }
  }

  lemma HashPrefix(line: string, h: nat)
    requires HashAt(line) == Some(h)
    ensures 6 <= h <= |line| && line[h - 2] == 'h' && line[h - 1] == '='
  {
    var i := h - 6;
    assert line[i..i + 6] == HASH;
    assert line[i + 4] == line[i..i + 6][4] && line[i + 5] == line[i..i + 6][5];
  }

  // Two lines alike but for what stands at `h`.
  ghost predicate Alike(a: string, b: string, h: nat) {
    |a| == |b| && forall x :: 0 <= x < |a| && (x < h || h + 64 <= x) ==> a[x] == b[x]
  }

  lemma ContainsAlike(a: string, b: string, h: nat, needle: string)
    requires Alike(a, b, h) && StampedAt(a, h) && Clean(needle) && Contains(a, needle)
    ensures Contains(b, needle)
  {
    var i := Find(a, needle, 0).value;
    HashPrefix(a, h);
    Apart(a, h, needle, i);
    MatchesMove(a, i, b, i, needle);
  }

  lemma HashAlike(a: string, b: string, h: nat)
    requires Alike(a, b, h) && HashAt(a) == Some(h)
    ensures HashAt(b) == Some(h)
  {
    var i := h - 6;
    assert |HASH| == 6;
    MatchesMove(a, i, b, i, HASH);
    forall j | 0 <= j < i ensures !Matches(b, HASH, j) {
      if Matches(b, HASH, j) { MatchesMove(b, j, a, j, HASH); }
    }
  }

  lemma StampAlike(line: string, digest: string)
    requires Stamped(line) && IsDigest(digest)
    ensures Alike(line, Stamp(line, digest), HashAt(line).value)
    ensures StampedAt(Stamp(line, digest), HashAt(line).value) && Recorded(Stamp(line, digest)) == digest
  {
    var h, after := HashAt(line).value, Stamp(line, digest);
    HashAlike(line, after, h);
    assert after[h..h + 64] == digest;
  }

  lemma StampContains(line: string, digest: string, needle: string)
    requires Stamped(line) && IsDigest(digest) && Clean(needle)
    ensures Contains(Stamp(line, digest), needle) <==> Contains(line, needle)
  {
    var h, after := HashAt(line).value, Stamp(line, digest);
    StampAlike(line, digest);
    if Contains(line, needle) { ContainsAlike(line, after, h, needle); }
    if Contains(after, needle) { ContainsAlike(after, line, h, needle); }
  }

  lemma StampTwice(line: string, first: string, second: string)
    requires Stamped(line) && IsDigest(first)
    ensures Stamped(Stamp(line, first)) && Stamp(Stamp(line, first), second) == Stamp(line, second)
  {
    StampAlike(line, first);
    var h, once := HashAt(line).value, Stamp(line, first);
    assert once[..h] == line[..h] && once[h + 64..] == line[h + 64..];
  }

  lemma StampEnded(line: string, digest: string)
    requires Stamped(line) && IsDigest(digest) && Ended(line)
    ensures Ended(Stamp(line, digest))
  {
    var h, after := HashAt(line).value, Stamp(line, digest);
    StampAlike(line, digest);
    assert line[|line| - 1] == '\n';
    assert forall x :: h <= x < h + 64 ==> Hex(line[x]) by {
      forall x | h <= x < h + 64 ensures Hex(line[x]) { assert line[x] == line[h..h + 64][x - h]; }
    }
    assert !Hex('\n');
    forall i | 0 <= i < |after| - 1 ensures after[i] != '\n' {
      if h <= i < h + 64 { assert after[i] == after[h..h + 64][i - h]; } else { assert after[i] == line[i]; }
    }
  }

  // ----- The rewritten source -----

  // Where the lines of the rewritten source come from.
  lemma RewrittenAt(lines: seq<string>, b: nat, e: nat, content: string, digest: string, i: nat)
    requires b < e <= |lines| && Stamped(lines[b])
    ensures var after, c := Rewritten(lines, b, e, content, digest), Split(content);
            && |after| == b + 1 + |c| + (|lines| - e)
            && (i < b ==> after[i] == lines[i])
            && (i == b ==> after[i] == Stamp(lines[b], digest))
            && (b < i < b + 1 + |c| ==> after[i] == c[i - b - 1])
            && (b + 1 + |c| <= i < |after| ==> after[i] == lines[i - (b + 1 + |c|) + e])
  {
  }

  lemma RewrittenProper(lines: seq<string>, b: nat, e: nat, content: string, digest: string)
    requires Proper(lines) && b < e < |lines| && Stamped(lines[b]) && EndsLine(content) && IsDigest(digest)
    ensures Proper(Rewritten(lines, b, e, content, digest))
  {
    var after := Rewritten(lines, b, e, content, digest);
    StampEnded(lines[b], digest);
    SplitEnded(content);
    forall i | 0 <= i < |after| ensures Ended(after[i]) || (i == |after| - 1 && Open(after[i])) {
      RewrittenAt(lines, b, e, content, digest, i);
    }
  }

  // A marker that the new content does not hold stays where it was, or moves along.
  lemma MarkerMoves(lines: seq<string>, b: nat, e: nat, content: string, digest: string, needle: string, k: nat)
    requires b < e <= |lines| && Stamped(lines[b]) && IsDigest(digest) && Clean(needle)
    requires OnlyAt(lines, needle, k) && (k <= b || e <= k) && Absent(Split(content), needle)
    ensures OnlyAt(Rewritten(lines, b, e, content, digest), needle,
                   if k <= b then k else k - e + b + 1 + |Split(content)|)
  {
    var after := Rewritten(lines, b, e, content, digest);
    var at := if k <= b then k else k - e + b + 1 + |Split(content)|;
    StampContains(lines[b], digest, needle);
    RewrittenAt(lines, b, e, content, digest, at);
    forall i | 0 <= i < |after| && i != at ensures !Contains(after[i], needle) {
      RewrittenAt(lines, b, e, content, digest, i);
    }
  }

  ghost predicate NoMarkers(content: string, id: string) {
    Absent(Split(content), Begin(id)) && Absent(Split(content), End(id))
  }

  // The rewritten source parses again: the region holds the content and records its digest.
  lemma RewrittenDelimited(lines: seq<string>, begin: string, end: string, b: nat, e: nat,
                           content: string, digest: string)
    requires Delimited(lines, begin, end, b, e) && Clean(begin) && Clean(end) && IsDigest(digest)
    requires Absent(Split(content), begin) && Absent(Split(content), end)
    ensures var after, e' := Rewritten(lines, b, e, content, digest), b + 1 + |Split(content)|;
            Delimited(after, begin, end, b, e') && Recorded(after[b]) == digest
  {
    MarkerMoves(lines, b, e, content, digest, begin, b);
    MarkerMoves(lines, b, e, content, digest, end, e);
    StampAlike(lines[b], digest);
    RewrittenAt(lines, b, e, content, digest, b);
  }

  // ----- Exactly when it parses again -----

  // The lines a rewriting puts in place of the opening line and the old content.
  function Middle(line: string, content: string, digest: string): seq<string>
    requires Stamped(line)
  {
    [Stamp(line, digest)] + Split(content)
  }

  ghost predicate Opens(lines: seq<string>, begin: string, k: nat) {
    OnlyAt(lines, begin, k) && Stamped(lines[k])
  }

  // Those lines hold no closing marker, and one opening marker with a digest.
  ghost predicate OpensOnce(middle: seq<string>, begin: string, end: string) {
    Absent(middle, end) && exists k: nat :: Opens(middle, begin, k)
  }

  ghost predicate Parses(lines: seq<string>, begin: string, end: string) {
    exists b: nat, e: nat :: Delimited(lines, begin, end, b, e)
  }

  // Around lines without markers, and before the closing marker.
  ghost predicate Surrounds(before: seq<string>, after: seq<string>, begin: string, end: string) {
    && Absent(before, begin) && Absent(before, end) && Absent(after, begin)
    && after != [] && OnlyAt(after, end, 0)
  }

  lemma SurroundedAt(before: seq<string>, middle: seq<string>, after: seq<string>, i: nat)
    requires i < |before| + |middle| + |after|
    ensures var all := before + middle + after;
            && (i < |before| ==> all[i] == before[i])
            && (|before| <= i < |before| + |middle| ==> all[i] == middle[i - |before|])
            && (|before| + |middle| <= i ==> all[i] == after[i - |before| - |middle|])
  {
  }

  lemma SurroundedMarks(before: seq<string>, middle: seq<string>, after: seq<string>, begin: string, end: string, i: nat)
    requires Surrounds(before, after, begin, end) && i < |before| + |middle| + |after|
    ensures var all := before + middle + after;
            && (i < |before| ==> !Contains(all[i], begin) && !Contains(all[i], end))
            && (|before| + |middle| <= i ==> !Contains(all[i], begin))
            && (|before| + |middle| <= i ==> (Contains(all[i], end) <==> i == |before| + |middle|))
  {
    SurroundedAt(before, middle, after, i);
  }

  lemma SurroundedOpens(before: seq<string>, middle: seq<string>, after: seq<string>, begin: string, end: string, k: nat)
    requires Surrounds(before, after, begin, end) && Absent(middle, end) && Opens(middle, begin, k)
    ensures Delimited(before + middle + after, begin, end, |before| + k, |before| + |middle|)
  {
    var all := before + middle + after;
    forall i | 0 <= i < |all|
      ensures Contains(all[i], begin) <==> i == |before| + k
      ensures Contains(all[i], end) <==> i == |before| + |middle|
    {
      SurroundedAt(before, middle, after, i);
      SurroundedMarks(before, middle, after, begin, end, i);
    }
    SurroundedAt(before, middle, after, |before| + k);
  }

  lemma SurroundedParses(before: seq<string>, middle: seq<string>, after: seq<string>, begin: string, end: string,
                         b: nat, e: nat)
    requires Surrounds(before, after, begin, end) && Delimited(before + middle + after, begin, end, b, e)
    ensures OpensOnce(middle, begin, end)
  {
    var all, e1 := before + middle + after, |before| + |middle|;
    SurroundedMarks(before, middle, after, begin, end, e1);
    SurroundedMarks(before, middle, after, begin, end, b);
    var k := b - |before|;
    forall i | 0 <= i < |middle|
      ensures !Contains(middle[i], end) && (Contains(middle[i], begin) <==> i == k)
    {
      SurroundedAt(before, middle, after, |before| + i);
    }
    SurroundedAt(before, middle, after, b);
    assert Opens(middle, begin, k);
  }

  // Whatever the content: the result parses again exactly when there is no closing marker in the
  // rewritten opening line and the content, and one opening marker, on a line with a digest.
  lemma ParsesAgainExactly(lines: seq<string>, begin: string, end: string, b: nat, e: nat,
                           content: string, digest: string)
    requires Delimited(lines, begin, end, b, e)
    ensures Parses(Rewritten(lines, b, e, content, digest), begin, end) <==>
            OpensOnce(Middle(lines[b], content, digest), begin, end)
  {
    var before, middle, after := lines[..b], Middle(lines[b], content, digest), lines[e..];
    var all := Rewritten(lines, b, e, content, digest);
    assert all == before + middle + after;
    assert after[0] == lines[e];
    assert Surrounds(before, after, begin, end);
    if Parses(all, begin, end) {
      var b': nat, e': nat :| Delimited(all, begin, end, b', e');
      SurroundedParses(before, middle, after, begin, end, b', e');
    }
    if OpensOnce(middle, begin, end) {
      var k: nat :| Opens(middle, begin, k);
      SurroundedOpens(before, middle, after, begin, end, k);
    }
  }

  // ----- Which occurrences on the opening line the digest decides about -----

  // An occurrence that does not touch the digest at `h`.
  ghost predicate Aside(line: string, h: nat, needle: string, i: nat) {
    Matches(line, needle, i) && (i + |needle| <= h || h + 64 <= i)
  }

  ghost predicate HeldAside(line: string, needle: string)
    requires Stamped(line)
  {
    exists i: nat :: Aside(line, HashAt(line).value, needle, i)
  }

  // The needle takes in some of a digest, put where the line has its own.
  ghost predicate ReachesInto(line: string, digest: string, needle: string)
    requires Stamped(line)
  {
    exists i: nat :: Matches(Stamp(line, digest), needle, i) && i < HashAt(line).value + 64 && HashAt(line).value < i + |needle|
  }

  // What stands beside the digest stays; what reaches into it depends on the digest alone.
  lemma StampContainsExactly(line: string, digest: string, needle: string)
    requires Stamped(line) && IsDigest(digest)
    ensures Contains(Stamp(line, digest), needle) <==> HeldAside(line, needle) || ReachesInto(line, digest, needle)
  {
    var h, after := HashAt(line).value, Stamp(line, digest);
    StampAlike(line, digest);
    if HeldAside(line, needle) {
      var i: nat :| Aside(line, h, needle, i);
      MatchesMove(line, i, after, i, needle);
    }
    if Contains(after, needle) {
      var i := Find(after, needle, 0).value;
      if i + |needle| <= h || h + 64 <= i {
        MatchesMove(after, i, line, i, needle);
        assert Aside(line, h, needle, i);
      }
    }
  }

  lemma NotHeld(line: string, needle: string)
    requires Stamped(line) && !Contains(line, needle)
    ensures !HeldAside(line, needle)
  {
    forall i: nat ensures !Aside(line, HashAt(line).value, needle, i) {}
  }

  // For content without markers the old opening line and the digest decide.
  lemma ParsesAgainPlain(lines: seq<string>, begin: string, end: string, b: nat, e: nat, content: string, digest: string)
    requires Delimited(lines, begin, end, b, e) && IsDigest(digest)
    requires Absent(Split(content), begin) && Absent(Split(content), end)
    ensures Parses(Rewritten(lines, b, e, content, digest), begin, end) <==>
            (HeldAside(lines[b], begin) || ReachesInto(lines[b], digest, begin)) && !ReachesInto(lines[b], digest, end)
  {
    var middle := Middle(lines[b], content, digest);
    ParsesAgainExactly(lines, begin, end, b, e, content, digest);
    StampContainsExactly(lines[b], digest, begin);
    StampContainsExactly(lines[b], digest, end);
    StampAlike(lines[b], digest);
    assert !Contains(lines[b], end);
    NotHeld(lines[b], end);
    assert middle[0] == Stamp(lines[b], digest);
    assert forall i :: 0 < i < |middle| ==> middle[i] == Split(content)[i - 1];
    if Contains(middle[0], begin) { assert Opens(middle, begin, 0); }
  }

  const OPENING := "omnius:managed-begin id=x"

  function Opening(digest: string): string {
    OPENING + HASH + digest + "\n"
  }

  lemma OpeningStamp(was: string, now: string)
    requires IsDigest(was) && IsDigest(now)
    ensures Stamped(Opening(was)) && Stamp(Opening(was), now) == Opening(now)
  {
    var line, h := Opening(was), |OPENING| + |HASH|;
    assert Matches(line, HASH, |OPENING|);
    forall i | 0 <= i < |OPENING| ensures !Matches(line, HASH, i) { NoHashBefore(line, i); }
    FindFirst(line, HASH, |OPENING|);
    assert line[h..h + 64] == was;
    assert line[..h] == OPENING + HASH && line[h + 64..] == "\n";
  }

  lemma NoHashBefore(line: string, i: nat)
    requires |OPENING| <= |line| && line[..|OPENING|] == OPENING && i < |OPENING|
    ensures !Matches(line, HASH, i)
  {
    forall j | 0 <= j < |OPENING| ensures line[j] == OPENING[j] { assert line[..|OPENING|][j] == OPENING[j]; }
    if i + 6 <= |line| {
      if i == 20 {
        assert line[i..i + 6][1] == OPENING[21];
      } else {
        assert line[i..i + 6][0] == OPENING[i];
      }
    }
  }

  // An id that goes on into the digest loses its marker when the digest changes.
  lemma LostMarker(was: string, now: string)
    requires IsDigest(was) && IsDigest(now) && was[0] != now[0]
    ensures Stamped(Opening(was)) && Contains(Opening(was), Begin("x" + HASH + [was[0]]))
    ensures !Contains(Stamp(Opening(was), now), Begin("x" + HASH + [was[0]]))
  {
    var begin := OPENING + HASH + [was[0]];
    OpeningStamp(was, now);
    BeginOf(was[0]);
    assert Opening(was)[0..|begin|] == begin;
    assert Matches(Opening(was), begin, 0);
    var line := Opening(now);
    OneO(now);
    forall i: nat ensures !Matches(line, begin, i) {
      if i == 0 {
        assert line[0..|begin|][|begin| - 1] == now[0];
      } else if i + |begin| <= |line| {
        assert line[i..i + |begin|][0] == line[i];
      }
    }
  }

  lemma BeginOf(c: char)
    ensures Begin("x" + HASH + [c]) == OPENING + HASH + [c]
  {
    assert "omnius:managed-begin id=" + "x" == OPENING;
  }

  lemma OneO(digest: string)
    requires IsDigest(digest)
    ensures forall i :: 0 < i < |Opening(digest)| ==> Opening(digest)[i] != 'o'
  {
    var line := Opening(digest);
    forall i | 0 < i < |line| ensures line[i] != 'o' {
      if i < |OPENING| {
        assert line[i] == OPENING[i];
      } else if i < |OPENING| + |HASH| {
        assert line[i] == HASH[i - |OPENING|];
      } else if i < |line| - 1 {
        assert line[i] == digest[i - |OPENING| - |HASH|];
      }
    }
  }

  // Nothing but the region and the digest changes.
  lemma RewrittenAround(lines: seq<string>, b: nat, e: nat, content: string, digest: string)
    requires b < e <= |lines| && Stamped(lines[b]) && IsDigest(digest)
    ensures var after, e' := Rewritten(lines, b, e, content, digest), b + 1 + |Split(content)|;
            && e' <= |after| && RegionText(after, b, e') == content
            && after[..b] == lines[..b] && after[e'..] == lines[e..]
            && Alike(lines[b], after[b], HashAt(lines[b]).value)
  {
    var after, e' := Rewritten(lines, b, e, content, digest), b + 1 + |Split(content)|;
    StampAlike(lines[b], digest);
    RewrittenAt(lines, b, e, content, digest, b);
    assert after[b + 1..e'] == Split(content);
    SplitConcat(content);
  }

  lemma RewrittenTwice(lines: seq<string>, b: nat, e: nat, c1: string, d1: string, c2: string, d2: string)
    requires b < e <= |lines| && Stamped(lines[b]) && IsDigest(d1)
    ensures var once, e' := Rewritten(lines, b, e, c1, d1), b + 1 + |Split(c1)|;
            && e' <= |once| && Stamped(once[b])
            && Rewritten(once, b, e', c2, d2) == Rewritten(lines, b, e, c2, d2)
  {
    var once, e' := Rewritten(lines, b, e, c1, d1), b + 1 + |Split(c1)|;
    RewrittenAt(lines, b, e, c1, d1, b);
    StampTwice(lines[b], d1, d2);
    assert once[..b] == lines[..b];
    assert once[e'..] == lines[e..];
  }

  // Where a line below or above the rewritten region ends up.
  function Moved(k: nat, b: nat, e: nat, content: string): int {
    if k <= b then k else k - e + b + 1 + |Split(content)|
  }

  // A region apart from the rewritten one keeps its text and its recorded digest.
  lemma OtherDelimited(lines: seq<string>, b: nat, e: nat, begin: string, end: string, b2: nat, e2: nat,
                       content: string, digest: string)
    requires b < e <= |lines| && Stamped(lines[b]) && IsDigest(digest)
    requires Delimited(lines, begin, end, b2, e2) && (e2 < b || e < b2) && Clean(begin) && Clean(end)
    requires Absent(Split(content), begin) && Absent(Split(content), end)
    ensures var after := Rewritten(lines, b, e, content, digest);
            var b3, e3 := Moved(b2, b, e, content), Moved(e2, b, e, content);
            && 0 <= b3 < e3 && Delimited(after, begin, end, b3, e3)
            && RegionText(after, b3, e3) == RegionText(lines, b2, e2)
            && Recorded(after[b3]) == Recorded(lines[b2])
  {
    var after := Rewritten(lines, b, e, content, digest);
    var b3, e3 := Moved(b2, b, e, content), Moved(e2, b, e, content);
    MarkerMoves(lines, b, e, content, digest, begin, b2);
    MarkerMoves(lines, b, e, content, digest, end, e2);
    LinesMoved(lines, b, e, b2, e2, content, digest);
  }

  lemma LinesMoved(lines: seq<string>, b: nat, e: nat, b2: nat, e2: nat, content: string, digest: string)
    requires b < e <= |lines| && Stamped(lines[b]) && b2 < e2 < |lines| && (e2 < b || e < b2)
    ensures var after := Rewritten(lines, b, e, content, digest);
            var b3, e3 := Moved(b2, b, e, content), Moved(e2, b, e, content);
            0 <= b3 < e3 < |after| && after[b3] == lines[b2] && after[b3 + 1..e3] == lines[b2 + 1..e2]
  {
    var after := Rewritten(lines, b, e, content, digest);
    var b3, e3 := Moved(b2, b, e, content), Moved(e2, b, e, content);
    RewrittenAt(lines, b, e, content, digest, e3);
    forall i | b2 <= i < e2 ensures after[i - b2 + b3] == lines[i] {
      RewrittenAt(lines, b, e, content, digest, i - b2 + b3);
    }
    assert after[b3 + 1..e3] == lines[b2 + 1..e2];
  }

  // ----- On whole sources -----

  lemma ReplaceLines(source: string, begin: string, end: string, content: string, digest: string, b: nat, e: nat)
    requires IsDigest(digest) && EndsLine(content) && Delimited(Split(source), begin, end, b, e)
    ensures ReplaceBetween(source, begin, end, content, digest).Some?
    ensures Split(ReplaceBetween(source, begin, end, content, digest).value)
            == Rewritten(Split(source), b, e, content, digest)
  {
    var after := Rewritten(Split(source), b, e, content, digest);
    ReplaceIs(source, begin, end, content, digest, b, e);
    SplitProper(source);
    RewrittenProper(Split(source), b, e, content, digest);
    ConcatSplit(after);
  }

  // The region lies between `b` and `e` of `after` with this content and digest, and
  // nothing but the region and the digest differs from `lines`, where it ended at `was`.
  ghost predicate Installed(lines: seq<string>, was: nat, after: seq<string>, id: string, b: nat, e: nat,
                            content: string, digest: string)
  {
    && Region(after, id, b, e) && RegionText(after, b, e) == content && Recorded(after[b]) == digest
    && b < |lines| && was <= |lines| && after[..b] == lines[..b] && after[e..] == lines[was..]
    && Stamped(lines[b]) && Alike(lines[b], after[b], HashAt(lines[b]).value)
  }

  lemma RewrittenInstalled(lines: seq<string>, id: string, b: nat, e: nat, content: string, digest: string)
    requires Region(lines, id, b, e) && '=' !in id && IsDigest(digest) && NoMarkers(content, id)
    ensures Installed(lines, e, Rewritten(lines, b, e, content, digest), id, b, b + 1 + |Split(content)|,
                      content, digest)
  {
    MarkersClean(id);
    RewrittenDelimited(lines, Begin(id), End(id), b, e, content, digest);
    RewrittenAround(lines, b, e, content, digest);
  }

  // The rewritten source parses again, with the new content and its digest; the rest is as it was.
  lemma ReplaceRegion(sha256: string -> string, source: string, id: string, content: string, b: nat, e: nat)
    requires IsHash(sha256) && '=' !in id && NoMarkers(content, id) && EndsLine(content)
    requires Region(Split(source), id, b, e)
    ensures Replace(sha256, source, id, content).Some?
    ensures Installed(Split(source), e, Split(Replace(sha256, source, id, content).value), id,
                      b, b + 1 + |Split(content)|, content, sha256(content))
  {
    ReplaceLines(source, Begin(id), End(id), content, sha256(content), b, e);
    RewrittenInstalled(Split(source), id, b, e, content, sha256(content));
  }

  // Rewriting either yields the same lines.
  ghost predicate SameAfter(lines: seq<string>, e: nat, once: seq<string>, e': nat, b: nat,
                            content: string, digest: string)
  {
    && b < e <= |lines| && Stamped(lines[b]) && b < e' <= |once| && Stamped(once[b])
    && Rewritten(once, b, e', content, digest) == Rewritten(lines, b, e, content, digest)
  }

  lemma LinesAgain(lines: seq<string>, once: seq<string>, begin: string, end: string, b: nat, e: nat,
                   first: string, d1: string, second: string, d2: string)
    requires Delimited(lines, begin, end, b, e) && Clean(begin) && Clean(end) && IsDigest(d1)
    requires Absent(Split(first), begin) && Absent(Split(first), end)
    requires once == Rewritten(lines, b, e, first, d1)
    ensures Delimited(once, begin, end, b, b + 1 + |Split(first)|)
    ensures SameAfter(lines, e, once, b + 1 + |Split(first)|, b, second, d2)
  {
    RewrittenDelimited(lines, begin, end, b, e, first, d1);
    RewrittenTwice(lines, b, e, first, d1, second, d2);
  }

  lemma ReplaceFrom(source: string, once: string, begin: string, end: string, second: string, d2: string,
                    b: nat, e: nat, e': nat)
    requires EndsLine(second) && Delimited(Split(source), begin, end, b, e) && Delimited(Split(once), begin, end, b, e')
    requires SameAfter(Split(source), e, Split(once), e', b, second, d2)
    ensures ReplaceBetween(once, begin, end, second, d2) == ReplaceBetween(source, begin, end, second, d2)
  {
    ReplaceIs(once, begin, end, second, d2, b, e');
    ReplaceIs(source, begin, end, second, d2, b, e);
  }

  lemma ReplaceAgain(source: string, once: string, begin: string, end: string, first: string, d1: string,
                     second: string, d2: string, b: nat, e: nat)
    requires Clean(begin) && Clean(end) && IsDigest(d1) && EndsLine(second)
    requires Absent(Split(first), begin) && Absent(Split(first), end) && Delimited(Split(source), begin, end, b, e)
    requires Split(once) == Rewritten(Split(source), b, e, first, d1)
    ensures ReplaceBetween(once, begin, end, second, d2) == ReplaceBetween(source, begin, end, second, d2)
  {
    LinesAgain(Split(source), Split(once), begin, end, b, e, first, d1, second, d2);
    ReplaceFrom(source, once, begin, end, second, d2, b, e, b + 1 + |Split(first)|);
  }

  // A second rewrite wins over the first.
  lemma ReplaceTwice(sha256: string -> string, source: string, id: string, first: string, second: string)
    requires IsHash(sha256) && '=' !in id && NoMarkers(first, id) && EndsLine(second)
    requires Replace(sha256, source, id, first).Some?
    ensures Replace(sha256, Replace(sha256, source, id, first).value, id, second)
            == Replace(sha256, source, id, second)
  {
    var b: nat, e: nat :| Delimited(Split(source), Begin(id), End(id), b, e);
    MarkersClean(id);
    ReplaceLines(source, Begin(id), End(id), first, sha256(first), b, e);
    ReplaceAgain(source, Replace(sha256, source, id, first).value, Begin(id), End(id),
                 first, sha256(first), second, sha256(second), b, e);
  }

  // A disjoint region keeps its text and its recorded digest.
  lemma ReplaceOther(sha256: string -> string, source: string, id: string, content: string, b: nat, e: nat,
                     other: string, b2: nat, e2: nat)
    requires IsHash(sha256) && '=' !in other && NoMarkers(content, other) && EndsLine(content)
    requires Region(Split(source), id, b, e) && Region(Split(source), other, b2, e2) && (e2 < b || e < b2)
    ensures Replace(sha256, source, id, content).Some?
    ensures var lines, after := Split(source), Split(Replace(sha256, source, id, content).value);
            var b3, e3 := Moved(b2, b, e, content), Moved(e2, b, e, content);
            && 0 <= b3 < e3 && Region(after, other, b3, e3)
            && RegionText(after, b3, e3) == RegionText(lines, b2, e2)
            && Recorded(after[b3]) == Recorded(lines[b2])
  {
    ReplaceLines(source, Begin(id), End(id), content, sha256(content), b, e);
    MarkersClean(other);
    OtherDelimited(Split(source), b, e, Begin(other), End(other), b2, e2, content, sha256(content));
  }
}
