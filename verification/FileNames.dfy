/**
 What the automation reads off the name of a file in the archive.
 */
module FileNames {
  import opened Json
  import opened Text

  function LastIndex(s: string, c: char): Option<nat> {
    if s == "" then None
    else if s[|s| - 1] == c then Some(|s| - 1)
    else LastIndex(s[..|s| - 1], c)
  }

  lemma {:induction false} LastIndexIs(s: string, c: char)
    ensures LastIndex(s, c).None? ==> c !in s
    ensures LastIndex(s, c).Some? ==>
              LastIndex(s, c).value < |s| && s[LastIndex(s, c).value] == c && c !in s[LastIndex(s, c).value + 1..]
  {
    if s != "" && s[|s| - 1] != c {
      LastIndexIs(s[..|s| - 1], c);
      assert s == s[..|s| - 1] + [s[|s| - 1]];
      var i := LastIndex(s[..|s| - 1], c);
      if i.Some? { assert s[i.value + 1..] == s[..|s| - 1][i.value + 1..] + [s[|s| - 1]]; }
    }
  }

  function LastPart(name: string): string {
    match LastIndex(name, '/')
    case None => name
    case Some(i) => if i < |name| then name[i + 1..] else ""
  }

  /** What follows the last dot of the last part, unless that dot comes first. */
  function Extension(name: string): Option<string> {
    var part := LastPart(name);
    match LastIndex(part, '.')
    case None => None
    case Some(i) => if 0 < i < |part| then Some(part[i + 1..]) else None
  }

  /** The extension is `md`, in any case. */
  predicate Markdown(name: string) {
    match Extension(name)
    case None => false
    case Some(e) => |e| == 2 && (e[0] == 'm' || e[0] == 'M') && (e[1] == 'd' || e[1] == 'D')
  }

  /** The extension is `md` as it stands. */
  predicate PlainMarkdown(name: string) {
    Extension(name) == Some(['m', 'd'])
  }

  /** Some part of the path starts with a dot. */
  predicate Hidden(name: string) {
    (name != "" && name[0] == '.') || exists i :: 0 <= i < |name| - 1 && name[i] == '/' && name[i + 1] == '.'
  }

  predicate StartsNumbered(name: string) {
    |name| >= 6 && Digit(name[0]) && Digit(name[1]) && name[2] == '-' && Markdown(name)
  }

  predicate Numbered(name: string) {
    StartsNumbered(name) && '/' !in name
  }

  predicate Adr(name: string) {
    |name| >= 4 && name[..4] == ['a', 'd', 'r', '/'] && Markdown(name)
  }

  lemma PlainIsMarkdown(name: string)
    requires PlainMarkdown(name)
    ensures Markdown(name)
  {
  }

  lemma LastIndexAt(s: string, c: char, i: nat)
    requires i < |s| && s[i] == c && c !in s[i + 1..]
    ensures LastIndex(s, c) == Some(i)
  {
    LastIndexIs(s, c);
    var j := LastIndex(s, c).value;
    forall k | i < k < |s| ensures s[k] != c { assert s[k] == s[i + 1..][k - i - 1]; }
    forall k | j < k < |s| ensures s[k] != c { assert s[k] == s[j + 1..][k - j - 1]; }
  }

  /** A name that ends in a slash and a last part has that last part. */
  lemma LastPartOf(dir: string, last: string)
    requires '/' !in last
    ensures LastPart(dir + ['/'] + last) == last
  {
    var name := dir + ['/'] + last;
    assert name[|dir| + 1..] == last;
    LastIndexAt(name, '/', |dir|);
  }

  lemma ExtensionOf(dir: string, stem: string, extension: string)
    requires stem != "" && '/' !in stem + ['.'] + extension && '.' !in extension
    ensures Extension(dir + ['/'] + (stem + ['.'] + extension)) == Some(extension)
  {
    var last := stem + ['.'] + extension;
    LastPartOf(dir, last);
    assert last[|stem| + 1..] == extension;
    LastIndexAt(last, '.', |stem|);
  }

  /** Which extensions make a Markdown file, and which a document. */
  lemma MarkdownExactly(dir: string, stem: string, extension: string)
    requires stem != "" && '/' !in stem + ['.'] + extension && '.' !in extension
    ensures var name := dir + ['/'] + (stem + ['.'] + extension);
            && (PlainMarkdown(name) <==> extension == ['m', 'd'])
            && (Markdown(name) <==>
                  || extension == ['m', 'd'] || extension == ['m', 'D'] || extension == ['M', 'd'] || extension == ['M', 'D'])
  {
    ExtensionOf(dir, stem, extension);
  }

  /** Decision records are the Markdown files below the directory `adr`. */
  lemma AdrExactly(dir: string, last: string)
    requires '/' !in last && last != ""
    ensures var name := dir + ['/'] + last;
            Adr(name) <==> Markdown(name) && (dir == ['a', 'd', 'r'] || (|dir| > 3 && dir[..4] == ['a', 'd', 'r', '/']))
  {
    var name := dir + ['/'] + last;
    if |dir| > 3 {
      assert name[..4] == dir[..4];
    } else if |dir| == 3 {
      assert name[..4] == dir + ['/'];
      assert name[..4][..3] == dir;
    } else {
      assert name[|dir|] == '/' && |name| >= 4 ==> name[..4][|dir|] == '/';
    }
  }

  /** Numbered specifications start with two digits and a dash, are Markdown and lie at the top. */
  lemma NumberedExactly(a: char, b: char, c: char, stem: string, extension: string)
    requires '/' !in [a, b, c] + stem + ['.'] + extension && '.' !in extension
    ensures var name := [a, b, c] + stem + ['.'] + extension;
            && (Numbered(name) <==> '0' <= a <= '9' && '0' <= b <= '9' && c == '-' && Markdown(name))
            && (Markdown(name) <==>
                  || extension == ['m', 'd'] || extension == ['m', 'D'] || extension == ['M', 'd'] || extension == ['M', 'D'])
  {
    var name := [a, b, c] + stem + ['.'] + extension;
    LastIndexIs(name, '/');
    assert name[3 + |stem|] == '.' && name[3 + |stem| + 1..] == extension;
    LastIndexAt(name, '.', 3 + |stem|);
  }
}
