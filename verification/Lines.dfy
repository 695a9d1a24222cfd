/**
 Text as lines that keep their line ends.
 */
module Lines {
  function Concat(lines: seq<string>): string {
    if lines == [] then "" else lines[0] + Concat(lines[1..])
  }

  // Cut after every line end; a last line may lack one.
  function Split(s: string): seq<string> {
    if s == "" then []
    else if s[0] == '\n' then ["\n"] + Split(s[1..])
    else
      var rest := Split(s[1..]);
      if rest == [] then [[s[0]]] else [[s[0]] + rest[0]] + rest[1..]
  }

  // A line with its end: one newline, at the end.
  predicate Ended(line: string) {
    |line| > 0 && line[|line| - 1] == '\n' && forall i :: 0 <= i < |line| - 1 ==> line[i] != '\n'
  }

  predicate Open(line: string) {
    |line| > 0 && forall i :: 0 <= i < |line| ==> line[i] != '\n'
  }

  predicate Proper(lines: seq<string>) {
    forall i :: 0 <= i < |lines| ==> Ended(lines[i]) || (i == |lines| - 1 && Open(lines[i]))
  }

  lemma Associate(x: string, y: string, z: string)
    ensures x + (y + z) == x + y + z
  {
  }

  lemma {:induction false} ConcatAppend(a: seq<string>, b: seq<string>)
    ensures Concat(a + b) == Concat(a) + Concat(b)
  {
    if a == [] {
      assert a + b == b;
    } else {
      ConcatAppend(a[1..], b);
      assert (a + b)[1..] == a[1..] + b;
      assert (a + b)[0] == a[0];
      Associate(a[0], Concat(a[1..]), Concat(b));
    }
  }

  lemma ConcatOne(line: string)
    ensures Concat([line]) == line
  {
    var one := [line];
    assert one[1..] == [] && Concat(one[1..]) == "";
  }

  lemma {:induction false} SplitConcat(s: string)
    ensures Concat(Split(s)) == s
  {
    if s != "" {
      SplitConcat(s[1..]);
      var rest := Split(s[1..]);
      assert s == [s[0]] + s[1..];
      if s[0] == '\n' {
        assert Split(s)[1..] == rest;
      } else if rest == [] {
        assert s[1..] == "";
        assert Split(s)[1..] == [];
      } else {
        assert Split(s)[1..] == rest[1..];
        Associate([s[0]], rest[0], Concat(rest[1..]));
      }
    }
  }

  lemma {:induction false} SplitProper(s: string)
    ensures Proper(Split(s))
  {
    if s != "" {
      SplitProper(s[1..]);
      var rest := Split(s[1..]);
      if s[0] == '\n' {
        assert Ended("\n");
      } else if rest != [] {
        var first := [s[0]] + rest[0];
        assert Ended(rest[0]) ==> Ended(first);
        assert Open(rest[0]) ==> Open(first);
      }
    }
  }

  // Splitting a line followed by more text yields the line first.
  lemma {:induction false} SplitLine(line: string, rest: string)
    requires Ended(line)
    ensures Split(line + rest) == [line] + Split(rest)
  {
    var s := line + rest;
    assert s[1..] == line[1..] + rest;
    if |line| > 1 {
      assert line[0] != '\n';
      SplitLine(line[1..], rest);
      assert line == [line[0]] + line[1..];
    } else {
      assert line == "\n" && line[1..] + rest == rest;
    }
  }

  lemma {:induction false} SplitOpen(line: string)
    requires Open(line)
    ensures Split(line) == [line]
  {
    if |line| > 1 {
      SplitOpen(line[1..]);
      assert line == [line[0]] + line[1..];
    } else {
      assert line[1..] == "" && line == [line[0]];
    }
  }

  // Proper lines are what splitting their text yields.
  lemma {:induction false} ConcatSplit(lines: seq<string>)
    requires Proper(lines)
    ensures Split(Concat(lines)) == lines
  {
    if lines != [] {
      assert Proper(lines[1..]) by {
        forall i | 0 <= i < |lines[1..]|
          ensures Ended(lines[1..][i]) || (i == |lines[1..]| - 1 && Open(lines[1..][i]))
        {
          assert lines[1..][i] == lines[i + 1];
        }
      }
      ConcatSplit(lines[1..]);
      if Ended(lines[0]) {
        SplitLine(lines[0], Concat(lines[1..]));
      } else {
        SplitOpen(lines[0]);
        assert lines[1..] == [] && lines == [lines[0]];
        assert lines[0] + "" == lines[0];
      }
    }
  }

  // All lines of a text that ends a line are ended.
  lemma {:induction false} SplitEnded(s: string)
    requires s == "" || s[|s| - 1] == '\n'
    ensures forall i :: 0 <= i < |Split(s)| ==> Ended(Split(s)[i])
  {
    SplitProper(s);
    SplitConcat(s);
    var lines := Split(s);
    if lines != [] && Open(lines[|lines| - 1]) {
      var front, last := lines[..|lines| - 1], lines[|lines| - 1];
      assert lines == front + [last];
      ConcatAppend(front, [last]);
      ConcatOne(last);
    }
  }

  // ----- Offsets -----

  function Offset(lines: seq<string>, k: nat): nat
    requires k <= |lines|
  {
    |Concat(lines[..k])|
  }

  lemma Around(lines: seq<string>, k: nat)
    requires k <= |lines|
    ensures Concat(lines) == Concat(lines[..k]) + Concat(lines[k..])
    ensures Concat(lines)[..Offset(lines, k)] == Concat(lines[..k])
    ensures Concat(lines)[Offset(lines, k)..] == Concat(lines[k..])
  {
    ConcatAppend(lines[..k], lines[k..]);
    assert lines == lines[..k] + lines[k..];
  }

  lemma OffsetNext(lines: seq<string>, k: nat)
    requires k < |lines|
    ensures Offset(lines, k + 1) == Offset(lines, k) + |lines[k]|
    ensures Offset(lines, k + 1) <= |Concat(lines)|
    ensures Concat(lines)[Offset(lines, k)..Offset(lines, k + 1)] == lines[k]
  {
    assert lines[..k + 1] == lines[..k] + [lines[k]];
    ConcatAppend(lines[..k], [lines[k]]);
    ConcatOne(lines[k]);
    Around(lines, k + 1);
  }

  lemma {:induction false} OffsetMonotone(lines: seq<string>, a: nat, b: nat)
    requires Proper(lines) && a <= b <= |lines|
    ensures Offset(lines, a) <= Offset(lines, b)
    ensures a < b ==> Offset(lines, a) < Offset(lines, b)
    decreases b - a
  {
    if a < b {
      OffsetMonotone(lines, a, b - 1);
      OffsetNext(lines, b - 1);
    }
  }
}
