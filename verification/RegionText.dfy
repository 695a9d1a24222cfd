/**
 What a managed region looks like in a source file, and what becomes of it.
 */
module RegionText {
  import opened Json
  import opened Text
  import opened Lines
  import opened ManagedRegions

  function FirstLine(digest: string): string {
    "omnius:managed-begin id=x hash=" + digest + "\n"
  }

  const LAST_LINE := "omnius:managed-end id=x\n"

  lemma FirstLineIs(digest: string)
    ensures FirstLine(digest) == Opening(digest)
  {
    assert "omnius:managed-begin id=x" + " hash=" == "omnius:managed-begin id=x hash=";
  }

  lemma FirstLineMarks(digest: string)
    requires IsDigest(digest)
    ensures Contains(Opening(digest), Begin("x")) && !Contains(Opening(digest), End("x")) && Ended(Opening(digest))
  {
    var line := Opening(digest);
    assert Begin("x") == OPENING;
    assert line[0..|OPENING|] == OPENING;
    assert Matches(line, Begin("x"), 0);
    OneO(digest);
    forall i: nat ensures !Matches(line, End("x"), i) {
      if i == 0 {
        assert line[15] == OPENING[15] == 'b' && End("x")[15] == 'e';
        if |End("x")| <= |line| { assert line[0..|End("x")|][15] == line[15]; }
      } else if i + |End("x")| <= |line| {
        assert line[i..i + |End("x")|][0] == line[i] && End("x")[0] == 'o';
      }
    }
    FirstLineEnds(digest);
  }

  lemma FirstLineEnds(digest: string)
    requires '\n' !in digest
    ensures Ended(Opening(digest))
  {
    var line := Opening(digest);
    forall i | 0 <= i < |line| - 1 ensures line[i] != '\n' {
      if i < |OPENING| {
        assert line[i] == OPENING[i];
      } else if i < |OPENING| + |HASH| {
        assert line[i] == HASH[i - |OPENING|];
      } else {
        assert line[i] == digest[i - |OPENING| - |HASH|];
      }
    }
  }

  lemma LastLineMarks()
    ensures Contains(LAST_LINE, End("x")) && !Contains(LAST_LINE, Begin("x")) && Ended(LAST_LINE)
  {
    assert LAST_LINE[0..|End("x")|] == End("x");
    assert Matches(LAST_LINE, End("x"), 0);
    assert |Begin("x")| > |LAST_LINE|;
  }

  // The lines of a file that is one region.
  function RegionLines(digest: string, content: string): seq<string> {
    [Opening(digest)] + Split(content) + [LAST_LINE]
  }

  predicate Whole(content: string) {
    content == "" || EndsLine(content)
  }

  lemma RegionSplits(digest: string, content: string)
    requires '\n' !in digest && Whole(content)
    ensures Concat(RegionLines(digest, content)) == Opening(digest) + content + LAST_LINE
    ensures Split(Opening(digest) + content + LAST_LINE) == RegionLines(digest, content)
  {
    var lines := RegionLines(digest, content);
    ConcatAppend([Opening(digest)] + Split(content), [LAST_LINE]);
    ConcatAppend([Opening(digest)], Split(content));
    ConcatOne(Opening(digest));
    ConcatOne(LAST_LINE);
    SplitConcat(content);
    FirstLineEnds(digest);
    LastLineMarks();
    if content != "" { SplitEnded(content); }
    ConcatSplit(lines);
  }

  lemma RegionDelimited(digest: string, content: string)
    requires IsDigest(digest) && Absent(Split(content), Begin("x")) && Absent(Split(content), End("x"))
    ensures Delimited(RegionLines(digest, content), Begin("x"), End("x"), 0, |Split(content)| + 1)
  {
    var lines := RegionLines(digest, content);
    FirstLineMarks(digest);
    LastLineMarks();
    OpeningStamp(digest, digest);
    forall i | 0 < i < |lines| - 1 ensures lines[i] == Split(content)[i - 1] {}
  }

  predicate Hexadecimal(s: string) {
    forall i :: 0 <= i < |s| ==> '0' <= s[i] <= '9' || 'a' <= s[i] <= 'f' || 'A' <= s[i] <= 'F'
  }

  lemma StampedExactly(digest: string)
    requires |digest| == 64
    ensures Stamped(Opening(digest)) <==> Hexadecimal(digest)
  {
    var line, h := Opening(digest), |OPENING| + |HASH|;
    assert Matches(line, HASH, |OPENING|);
    forall i | 0 <= i < |OPENING| ensures !Matches(line, HASH, i) { NoHashBefore(line, i); }
    FindFirst(line, HASH, |OPENING|);
    assert line[h..h + 64] == digest;
  }

  // A digest of 64 characters that are not all hexadecimal is refused.
  lemma RegionRefused(sha256: string -> string, was: string, before: string, content: string)
    requires |was| == 64 && '\n' !in was && !Hexadecimal(was) && Whole(before)
    ensures Replace(sha256, FirstLine(was) + before + LAST_LINE, "x", content) == None
  {
    FirstLineIs(was);
    RegionSplits(was, before);
    StampedExactly(was);
    var lines := RegionLines(was, before);
    assert lines[0] == Opening(was);
    assert Opening(was)[0..|OPENING|] == Begin("x");
    assert Matches(lines[0], Begin("x"), 0);
    forall b: nat, e: nat ensures !Delimited(lines, Begin("x"), End("x"), b, e) {
      if b > 0 && OnlyAt(lines, Begin("x"), b) { assert Contains(lines[0], Begin("x")); }
    }
  }

  lemma LinesRewritten(was: string, before: string, content: string, now: string)
    requires IsDigest(was) && IsDigest(now)
    ensures Stamped(RegionLines(was, before)[0])
    ensures Rewritten(RegionLines(was, before), 0, |Split(before)| + 1, content, now) == RegionLines(now, content)
  {
    OpeningStamp(was, now);
  }

  lemma TextRewritten(was: string, before: string, content: string, now: string)
    requires IsDigest(was) && IsDigest(now) && Whole(before) && EndsLine(content) && NoMarkers(before, "x")
    ensures ReplaceBetween(Opening(was) + before + LAST_LINE, Begin("x"), End("x"), content, now)
            == Some(Opening(now) + content + LAST_LINE)
  {
    RegionSplits(was, before);
    RegionDelimited(was, before);
    ReplaceIs(Opening(was) + before + LAST_LINE, Begin("x"), End("x"), content, now, 0, |Split(before)| + 1);
    LinesRewritten(was, before, content, now);
    RegionSplits(now, content);
  }

  // The content and its digest are exchanged, and the marker lines stay.
  lemma RegionRewritten(sha256: string -> string, was: string, before: string, content: string)
    requires IsDigest(was) && IsDigest(sha256(content)) && Whole(before) && EndsLine(content) && NoMarkers(before, "x")
    ensures Replace(sha256, FirstLine(was) + before + LAST_LINE, "x", content)
            == Some(FirstLine(sha256(content)) + content + LAST_LINE)
  {
    FirstLineIs(was);
    FirstLineIs(sha256(content));
    TextRewritten(was, before, content, sha256(content));
  }

  // ----- Regions of any id -----

  ghost predicate Holds(line: string, text: string) {
    exists i: nat :: Matches(line, text, i)
  }

  ghost predicate HeldOnlyBy(lines: seq<string>, text: string, k: nat) {
    k < |lines| && forall i :: 0 <= i < |lines| ==> (Holds(lines[i], text) <==> i == k)
  }

  // The first digest field of the line starts at `h`, and 64 hexadecimal digits follow it.
  ghost predicate Digested(line: string, h: nat) {
    && h + 70 <= |line| && Matches(line, " hash=", h) && Hexadecimal(line[h + 6..h + 70])
    && forall i :: 0 <= i < h ==> !Matches(line, " hash=", i)
  }

  ghost predicate Marked(lines: seq<string>, id: string, b: nat, e: nat, h: nat) {
    && HeldOnlyBy(lines, "omnius:managed-begin id=" + id, b) && HeldOnlyBy(lines, "omnius:managed-end id=" + id, e)
    && b < e && Digested(lines[b], h)
  }

  lemma HoldsExactly(line: string, text: string)
    ensures Contains(line, text) <==> Holds(line, text)
  {
    if Contains(line, text) { assert Matches(line, text, Find(line, text, 0).value); }
  }

  lemma HexExactly(line: string, h: nat)
    ensures h + 70 <= |line| ==> (AllHex(line[h + 6..h + 70]) <==> Hexadecimal(line[h + 6..h + 70]))
  {
  }

  lemma DigestedExactly(line: string, h: nat)
    ensures StampedAt(line, h + 6) <==> Digested(line, h)
    ensures Stamped(line) ==> HashAt(line).value >= 6
  {
    FindFirst(line, HASH, h);
    HexExactly(line, h);
  }

  lemma HeldExactly(lines: seq<string>, text: string, k: nat)
    ensures OnlyAt(lines, text, k) <==> HeldOnlyBy(lines, text, k)
  {
    forall i | 0 <= i < |lines| ensures Contains(lines[i], text) <==> Holds(lines[i], text) {
      HoldsExactly(lines[i], text);
    }
  }

  lemma DigestOf(line: string)
    requires Stamped(line)
    ensures HashAt(line).value >= 6 && Digested(line, HashAt(line).value - 6)
  {
    DigestedExactly(line, 0);
    DigestedExactly(line, HashAt(line).value - 6);
  }

  lemma MarkedExactly(lines: seq<string>, id: string, b: nat, e: nat)
    ensures Delimited(lines, Begin(id), End(id), b, e) <==> exists h: nat :: Marked(lines, id, b, e, h)
    ensures forall h: nat :: Marked(lines, id, b, e, h) ==> HashAt(lines[b]) == Some(h + 6)
  {
    HeldExactly(lines, Begin(id), b);
    HeldExactly(lines, End(id), e);
    if Delimited(lines, Begin(id), End(id), b, e) {
      DigestOf(lines[b]);
      assert Marked(lines, id, b, e, HashAt(lines[b]).value - 6);
    }
    forall h: nat | Marked(lines, id, b, e, h) ensures StampedAt(lines[b], h + 6) { DigestedExactly(lines[b], h); }
  }

  // A region is rewritten exactly when both markers stand on one line each, the opening one
  // first and with a digest, and the content ends its last line.
  lemma ReplacedExactly(sha256: string -> string, source: string, id: string, content: string)
    ensures Replace(sha256, source, id, content).Some? <==>
            && content != "" && content[|content| - 1] == '\n'
            && exists b: nat, e: nat, h: nat :: Marked(Split(source), id, b, e, h)
  {
    var lines := Split(source);
    if Replace(sha256, source, id, content).Some? {
      var b: nat, e: nat :| Delimited(lines, Begin(id), End(id), b, e);
      MarkedExactly(lines, id, b, e);
    }
    if b: nat, e: nat, h: nat :| Marked(lines, id, b, e, h) { MarkedExactly(lines, id, b, e); }
  }

  // What becomes of the lines: the digest is exchanged, and what lies between the markers.
  lemma ReplacedText(sha256: string -> string, source: string, id: string, content: string, b: nat, e: nat, h: nat)
    requires Marked(Split(source), id, b, e, h) && EndsLine(content)
    ensures var lines := Split(source);
            Replace(sha256, source, id, content) ==
            Some(Concat(lines[..b]) + (lines[b][..h + 6] + sha256(content) + lines[b][h + 70..]) + content + Concat(lines[e..]))
  {
    var lines := Split(source);
    MarkedExactly(lines, id, b, e);
    ReplaceIs(source, Begin(id), End(id), content, sha256(content), b, e);
    var line := Stamp(lines[b], sha256(content));
    ConcatAppend(lines[..b] + [line] + Split(content), lines[e..]);
    ConcatAppend(lines[..b] + [line], Split(content));
    ConcatAppend(lines[..b], [line]);
    ConcatOne(line);
    SplitConcat(content);
  }
}
