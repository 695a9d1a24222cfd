/**
 What a JSON reader finds in a printed manifest: exactly the records that were printed.
 */
module ManifestReadBack {
  import opened Json
  import opened Text
  import opened ArrayScanner
  import opened RecordReader
  import opened ManifestText

  // ----- Strings and numbers

  lemma {:induction false} UnitsTextConcat(a: seq<Unit>, b: seq<Unit>)
    ensures UnitsText(a + b) == UnitsText(a) + UnitsText(b)
  {
    if a == [] {
      assert a + b == b;
    } else {
      UnitsTextConcat(a[1..], b);
      assert (a + b)[1..] == a[1..] + b;
      Pair(UnitText(a[0]), UnitsText(a[1..]), UnitsText(b));
    }
  }

  lemma Pair(a: string, b: string, c: string)
    ensures a + b + c == a + (b + c)
  {
  }

  lemma OneUnit(u: Unit)
    ensures UnitsText([u]) == UnitText(u)
  {
    assert [u][1..] == [];
  }

  lemma EscapeBack(e: char, rest: string)
    requires Unescaped(e).Some?
    ensures ReadChar(UnitsText([Escape(e)]) + rest) == Some((Unescaped(e).value, rest))
  {
    OneUnit(Escape(e));
    assert (['\\', e] + rest)[2..] == rest;
  }

  lemma HexBack(c: char)
    requires c < ' '
    ensures ReadHex(['0', '0', HexDigit(c as int / 16), HexDigit(c as int % 16)]) == Some(c)
  {
    assert c as int / 16 * 16 + c as int % 16 == c as int;
  }

  lemma ReadHexMore(t: string, rest: string)
    requires |t| == 4
    ensures ReadHex(t + rest) == ReadHex(t)
  {
  }

  lemma TwoUnits(u: Unit, v: Unit)
    ensures UnitsText([u, v]) == UnitText(u) + UnitText(v)
  {
    UnitsTextConcat([u], [v]);
    OneUnit(u);
    OneUnit(v);
  }

  lemma ControlText(a: char, b: char)
    ensures UnitsText([Escape('u'), Char('0'), Char('0'), Char(a), Char(b)]) == ['\\', 'u', '0', '0', a, b]
  {
    UnitsTextConcat([Escape('u'), Char('0'), Char('0')], [Char(a), Char(b)]);
    UnitsTextConcat([Escape('u'), Char('0')], [Char('0')]);
    TwoUnits(Escape('u'), Char('0'));
    OneUnit(Char('0'));
    TwoUnits(Char(a), Char(b));
    assert [Escape('u'), Char('0'), Char('0')] + [Char(a), Char(b)]
        == [Escape('u'), Char('0'), Char('0'), Char(a), Char(b)];
    assert [Escape('u'), Char('0')] + [Char('0')] == [Escape('u'), Char('0'), Char('0')];
  }

  lemma ControlBack(c: char, rest: string)
    requires c < ' '
    ensures ReadChar(['\\', 'u', '0', '0', HexDigit(c as int / 16), HexDigit(c as int % 16)] + rest) == Some((c, rest))
  {
    var hex := ['0', '0', HexDigit(c as int / 16), HexDigit(c as int % 16)];
    var t := ['\\', 'u', '0', '0', HexDigit(c as int / 16), HexDigit(c as int % 16)] + rest;
    assert t[2..] == hex + rest && t[6..] == rest;
    HexBack(c);
    ReadHexMore(hex, rest);
  }

  lemma CharBack(c: char, rest: string)
    ensures ReadChar(UnitsText(CharUnits(c)) + rest) == Some((c, rest))
  {
    var units := CharUnits(c);
    if |units| == 5 {
      ControlText(HexDigit(c as int / 16), HexDigit(c as int % 16));
      ControlBack(c, rest);
    } else if units[0].Escape? {
      assert units == [Escape(units[0].c)];
      EscapeBack(units[0].c, rest);
    } else {
      OneUnit(Char(c));
      assert ([c] + rest)[1..] == rest;
    }
  }

  lemma {:induction false} StringBack(s: string, rest: string)
    ensures ReadChars(UnitsText(Units(s)) + "\"" + rest) == Some((s, rest))
  {
    if s == "" {
      assert ("\"" + rest)[1..] == rest;
    } else {
      var tail := UnitsText(Units(s[1..])) + "\"" + rest;
      UnitsTextConcat(CharUnits(s[0]), Units(s[1..]));
      CharBack(s[0], tail);
      assert UnitsText(Units(s)) + "\"" + rest == UnitsText(CharUnits(s[0])) + tail;
      StringBack(s[1..], rest);
      assert [s[0]] + s[1..] == s;
    }
  }

  lemma {:induction false} DecimalBack(n: nat, rest: string)
    ensures Decimal(n) != "" && Digit(Decimal(n)[0])
    ensures ReadDigits(Decimal(n) + rest, 0) == ReadDigits(rest, n)
  {
    var last := ('0' as int + n % 10) as char;
    assert ([last] + rest)[1..] == rest;
    if n >= 10 {
      DecimalBack(n / 10, [last] + rest);
      assert Decimal(n) + rest == Decimal(n / 10) + ([last] + rest);
    }
  }

  ghost predicate NoDigit(t: string) {
    t == "" || !Digit(t[0])
  }

  lemma WordBack(s: string, rest: string)
    ensures ReadItem(JsonString(s) + rest) == Some((Word(s), rest)) && (JsonString(s) + rest)[0] == '"'
  {
    StringBack(s, rest);
    Unquote(UnitsText(Units(s)), rest);
  }

  lemma Unquote(s: string, rest: string)
    ensures ("\"" + s + "\"" + rest)[1..] == s + "\"" + rest && ("\"" + s + "\"" + rest)[0] == '"'
  {
  }

  lemma CountBack(n: nat, rest: string)
    requires NoDigit(rest)
    ensures ReadItem(Decimal(n) + rest) == Some((Count(n), rest)) && Digit((Decimal(n) + rest)[0])
  {
    DecimalBack(n, rest);
  }

  lemma ItemBack(item: Item, rest: string)
    requires NoDigit(rest)
    ensures ReadItem(ItemText(item) + rest) == Some((item, rest)) && !Space((ItemText(item) + rest)[0])
  {
    match item
    case Word(s) => WordBack(s, rest);
    case Count(n) => CountBack(n, rest);
  }

  // ----- Spaces and punctuation

  ghost predicate Blank(t: string) {
    forall i :: 0 <= i < |t| ==> Space(t[i])
  }

  lemma {:induction false} SkipBlank(blank: string, rest: string)
    requires Blank(blank) && (rest == "" || !Space(rest[0]))
    ensures SkipSpace(blank + rest) == rest
  {
    if blank == "" {
      assert blank + rest == rest;
    } else {
      assert (blank + rest)[1..] == blank[1..] + rest;
      SkipBlank(blank[1..], rest);
    }
  }

  lemma ExpectBack(blank: string, c: char, rest: string)
    requires Blank(blank) && !Space(c)
    ensures Expect(blank + [c] + rest, c) == Some(rest)
    ensures forall d :: d != c ==> Expect(blank + [c] + rest, d) == None
  {
    SkipBlank(blank, [c] + rest);
    assert blank + [c] + rest == blank + ([c] + rest);
  }

  // ----- Members and objects

  lemma MemberBack(e: Entry, rest: string)
    requires NoDigit(rest)
    ensures ReadMember(EntryText(e) + rest) == Some((e, rest))
  {
    MemberParts(INDENT, e, ": ", " ", rest);
  }

  lemma MemberParts(indent: string, e: Entry, colon: string, gap: string, rest: string)
    requires NoDigit(rest) && Blank(indent) && colon == [':'] + gap && Blank(gap)
    ensures ReadMember(indent + JsonString(e.name) + colon + ItemText(e.item) + rest) == Some((e, rest))
  {
    var name, value := UnitsText(Units(e.name)), ItemText(e.item) + rest;
    Regroup(indent, name, colon, ItemText(e.item), rest);
    StringBack(e.name, colon + value);
    ColonFirst(gap, value);
    ItemBack(e.item, rest);
    SkipBlank(gap, value);
    ExpectBack(indent, '"', name + "\"" + (colon + value));
  }

  lemma Regroup(indent: string, name: string, colon: string, item: string, rest: string)
    ensures indent + ("\"" + name + "\"") + colon + item + rest == indent + ['"'] + (name + "\"" + (colon + (item + rest)))
  {
  }

  lemma ColonFirst(gap: string, value: string)
    ensures Expect([':'] + gap + value, ':') == Some(gap + value)
  {
    assert [':'] + gap + value == "" + [':'] + (gap + value);
    ExpectBack("", ':', gap + value);
  }

  /** The text after the first of several joined parts. */
  function After(parts: seq<string>, sep: string, rest: string): string
    requires parts != []
  {
    if |parts| == 1 then rest else sep + (Joined(parts[1..], sep) + rest)
  }

  lemma JoinedSplit(parts: seq<string>, sep: string, rest: string)
    requires parts != []
    ensures Joined(parts, sep) + rest == parts[0] + After(parts, sep, rest)
  {
    if |parts| > 1 {
      JoinedFirst(parts, sep);
      Associate(parts[0], sep, Joined(parts[1..], sep), rest);
    }
  }

  lemma CommaFirst(gap: string, more: string)
    ensures Expect("," + gap + more, ',') == Some(gap + more)
  {
    assert "," + gap + more == "" + [','] + (gap + more);
    ExpectBack("", ',', gap + more);
  }

  lemma EntriesTail(es: seq<Entry>)
    requires es != []
    ensures EntryTexts(es)[1..] == EntryTexts(es[1..])
  {
  }

  /** The text goes on with the closing character, and then with the rest. */
  ghost predicate Ends(end: string, c: char, rest: string) {
    Expect(end, c) == Some(rest) && Expect(end, ',') == None && NoDigit(end)
  }

  lemma LastMember(t: string, e: Entry, end: string, rest: string)
    requires ReadMember(t) == Some((e, end)) && Ends(end, '}', rest)
    ensures ReadMembers(t) == Some(([e], rest))
  {
  }

  lemma NextMember(t: string, e: Entry, more: string, es: seq<Entry>, rest: string)
    requires ReadMember(t) == Some((e, "," + more)) && ReadMembers(more) == Some((es, rest))
    ensures ReadMembers(t) == Some(([e] + es, rest))
  {
    CommaFirst("", more);
    assert "" + more == more && "," + "" + more == "," + more;
  }

  lemma {:induction false} MembersBack(es: seq<Entry>, end: string, rest: string)
    requires es != [] && Ends(end, '}', rest)
    ensures ReadMembers(Joined(EntryTexts(es), ",") + end) == Some((es, rest))
  {
    var t := Joined(EntryTexts(es), ",") + end;
    JoinedSplit(EntryTexts(es), ",", end);
    MemberBack(es[0], After(EntryTexts(es), ",", end));
    if |es| == 1 {
      LastMember(t, es[0], end, rest);
      assert es == [es[0]];
    } else {
      EntriesTail(es);
      MembersBack(es[1..], end, rest);
      NextMember(t, es[0], Joined(EntryTexts(es[1..]), ",") + end, es[1..], rest);
      assert [es[0]] + es[1..] == es;
    }
  }

  lemma EntryStart(e: Entry, rest: string)
    ensures Expect(EntryText(e) + rest, '}') == None
  {
    var name, item := UnitsText(Units(e.name)), ItemText(e.item);
    Regroup(INDENT, name, ": ", item, rest);
    ExpectBack(INDENT, '"', name + "\"" + (": " + (item + rest)));
  }

  lemma EntriesStart(es: seq<Entry>, rest: string)
    requires es != []
    ensures Expect(Joined(EntryTexts(es), ",") + rest, '}') == None
  {
    JoinedSplit(EntryTexts(es), ",", rest);
    EntryStart(es[0], After(EntryTexts(es), ",", rest));
  }

  lemma ObjectParts(blank: string, es: seq<Entry>, close: string, rest: string)
    requires Blank(blank) && Blank(close) && close != ""
    ensures ReadObject(blank + ['{'] + (Joined(EntryTexts(es), ",") + (close + "}" + rest))) == Some((es, rest))
  {
    var end := close + "}" + rest;
    ExpectBack(blank, '{', Joined(EntryTexts(es), ",") + end);
    if es == [] {
      assert Joined(EntryTexts(es), ",") + end == close + ['}'] + rest;
      ExpectBack(close, '}', rest);
    } else {
      EntriesStart(es, end);
      ExpectBack(close, '}', rest);
      MembersBack(es, end, rest);
    }
  }

  lemma ObjectBack(blank: string, es: seq<Entry>, rest: string)
    requires Blank(blank)
    ensures ReadObject(blank + (ObjectText(es) + rest)) == Some((es, rest))
    ensures Expect(blank + (ObjectText(es) + rest), ']') == None
  {
    var body := Joined(EntryTexts(es), ",");
    Braces(blank, body, rest);
    ObjectParts(blank + "    ", es, "\n    ", rest);
    ExpectBack(blank + "    ", '{', body + ("\n    " + "}" + rest));
  }

  lemma Braces(blank: string, body: string, rest: string)
    ensures blank + ("    {" + body + "\n    }" + rest) == (blank + "    ") + ['{'] + (body + ("\n    " + "}" + rest))
  {
  }

  // ----- The array

  ghost predicate Reads(text: string, o: seq<Entry>, blank: string, rest: string) {
    ReadObject(blank + (text + rest)) == Some((o, rest)) && Expect(blank + (text + rest), ']') == None
  }

  /** Read after any spaces and before any text, the text is the object. */
  ghost predicate Encodes(text: string, o: seq<Entry>) {
    forall blank: string, rest: string :: Blank(blank) ==> Reads(text, o, blank, rest)
  }

  lemma ObjectEncodes(es: seq<Entry>)
    ensures Encodes(ObjectText(es), es)
  {
    forall blank: string, rest: string | Blank(blank) ensures Reads(ObjectText(es), es, blank, rest) {
      ObjectBack(blank, es, rest);
    }
  }

  lemma LastObject(t: string, o: seq<Entry>, end: string, rest: string)
    requires ReadObject(t) == Some((o, end)) && Ends(end, ']', rest)
    ensures ReadObjects(t) == Some(([o], rest))
  {
  }

  lemma NextObject(t: string, o: seq<Entry>, more: string, os: seq<seq<Entry>>, rest: string)
    requires ReadObject(t) == Some((o, "," + more)) && ReadObjects(more) == Some((os, rest))
    ensures ReadObjects(t) == Some(([o] + os, rest))
  {
    CommaFirst("", more);
    assert "," + "" + more == "," + more && "" + more == more;
  }

  ghost predicate AllEncode(parts: seq<string>, objects: seq<seq<Entry>>)
    decreases |parts|
  {
    if parts == [] || objects == [] then |parts| == |objects|
    else Encodes(parts[0], objects[0]) && AllEncode(parts[1..], objects[1..])
  }

  lemma {:induction false} TextsEncode(objects: seq<seq<Entry>>)
    ensures AllEncode(Texts(objects), objects)
  {
    if objects != [] {
      ObjectEncodes(objects[0]);
      TextsEncode(objects[1..]);
      assert Texts(objects)[1..] == Texts(objects[1..]);
    }
  }

  /** The first object, and what is left of the text. */
  lemma FirstObject(blank: string, parts: seq<string>, objects: seq<seq<Entry>>, gap: string, end: string)
    returns (more: string)
    requires Blank(blank) && parts != [] && objects != [] && Encodes(parts[0], objects[0])
    ensures var t := blank + (Joined(parts, "," + gap) + end);
            && Expect(t, ']') == None
            && ReadObject(t) == Some((objects[0], if |parts| == 1 then end else "," + more))
    ensures |parts| > 1 ==> more == gap + (Joined(parts[1..], "," + gap) + end)
  {
    JoinedSplit(parts, "," + gap, end);
    assert Reads(parts[0], objects[0], blank, After(parts, "," + gap, end));
    if |parts| > 1 {
      var tail := Joined(parts[1..], "," + gap) + end;
      more := gap + tail;
      assert "," + gap + tail == "," + more;
    } else {
      more := "";
    }
  }

  /** The text reads as these objects, one after the other. */
  ghost predicate AllRead(t: string, objects: seq<seq<Entry>>, rest: string)
    decreases |objects|
  {
    && objects != [] && Expect(t, ']') == None && ReadObject(t).Some? && ReadObject(t).value.0 == objects[0]
    && var u := ReadObject(t).value.1;
    if |objects| == 1 then Ends(u, ']', rest)
    else exists more :: u == "," + more && AllRead(more, objects[1..], rest)
  }

  lemma ReadNext(t: string, objects: seq<seq<Entry>>, rest: string) returns (more: string)
    requires AllRead(t, objects, rest) && |objects| > 1
    ensures AllRead(more, objects[1..], rest)
    ensures ReadObjects(more) == Some((objects[1..], rest)) ==> ReadObjects(t) == Some((objects, rest))
  {
    more :| ReadObject(t).value.1 == "," + more && AllRead(more, objects[1..], rest);
    if ReadObjects(more) == Some((objects[1..], rest)) {
      NextObject(t, objects[0], more, objects[1..], rest);
      assert [objects[0]] + objects[1..] == objects;
    }
  }

  lemma ReadLast(t: string, objects: seq<seq<Entry>>, rest: string)
    requires AllRead(t, objects, rest) && |objects| == 1
    ensures ReadObjects(t) == Some((objects, rest))
  {
    LastObject(t, objects[0], ReadObject(t).value.1, rest);
    assert objects == [objects[0]];
  }

  lemma {:induction false} AllReadBack(t: string, objects: seq<seq<Entry>>, rest: string)
    requires AllRead(t, objects, rest)
    ensures ReadObjects(t) == Some((objects, rest))
    decreases |objects|
  {
    if |objects| == 1 {
      ReadLast(t, objects, rest);
    } else {
      var more := ReadNext(t, objects, rest);
      AllReadBack(more, objects[1..], rest);
    }
  }

  lemma ReadFirst(t: string, blank: string, parts: seq<string>, objects: seq<seq<Entry>>, gap: string, end: string, rest: string)
    returns (more: string)
    requires Blank(blank) && Ends(end, ']', rest) && objects != [] && AllEncode(parts, objects)
    requires t == blank + (Joined(parts, "," + gap) + end)
    ensures |objects| == 1 ==> AllRead(t, objects, rest)
    ensures |objects| > 1 ==> more == gap + (Joined(parts[1..], "," + gap) + end)
    ensures |objects| > 1 && AllRead(more, objects[1..], rest) ==> AllRead(t, objects, rest)
  {
    AllEncodeSize(parts, objects);
    more := FirstObject(blank, parts, objects, gap, end);
  }

  lemma {:induction false} AllEncodeSize(parts: seq<string>, objects: seq<seq<Entry>>)
    requires AllEncode(parts, objects)
    ensures |parts| == |objects|
    decreases |parts|
  {
    if parts != [] && objects != [] { AllEncodeSize(parts[1..], objects[1..]); }
  }

  lemma {:induction false} ObjectsBack(t: string, blank: string, parts: seq<string>, objects: seq<seq<Entry>>,
                                       gap: string, end: string, rest: string)
    requires Blank(blank) && Blank(gap) && Ends(end, ']', rest) && objects != [] && AllEncode(parts, objects)
    requires t == blank + (Joined(parts, "," + gap) + end)
    ensures AllRead(t, objects, rest)
    decreases |objects|
  {
    var more := ReadFirst(t, blank, parts, objects, gap, end, rest);
    if |objects| > 1 { ObjectsBack(more, gap, parts[1..], objects[1..], gap, end, rest); }
  }

  /** A reader of the printed array finds the records, members in order, and stops behind it. */
  lemma ArrayBack(objects: seq<seq<Entry>>, rest: string)
    ensures ReadArray(ArrayText(objects) + rest) == Some((objects, rest))
  {
    var body, end := Joined(Texts(objects), ",\n"), "\n  " + "]" + rest;
    Brackets(body, rest);
    ExpectBack("", '[', "\n" + (body + end));
    if objects == [] {
      EmptyArray(rest);
    } else {
      assert ",\n" == "," + "\n";
      ExpectBack("\n  ", ']', rest);
      TextsEncode(objects);
      ObjectsBack("\n" + (body + end), "\n", Texts(objects), objects, "\n", end, rest);
      AllReadBack("\n" + (body + end), objects, rest);
    }
  }

  lemma Brackets(body: string, rest: string)
    ensures "[\n" + body + "\n  ]" + rest == "" + ['['] + ("\n" + (body + ("\n  " + "]" + rest)))
  {
  }

  lemma EmptyArray(rest: string)
    ensures Expect("\n" + ("" + ("\n  " + "]" + rest)), ']') == Some(rest)
  {
    assert "\n" + ("" + ("\n  " + "]" + rest)) == "\n\n  " + [']'] + rest;
    ExpectBack("\n\n  ", ']', rest);
  }

  // ----- The manifest

  /** After a refresh the array under the key reads as the new records, followed by the old rest. */
  lemma RefreshedReads(contents: string, key: string, start: nat, end: nat, objects: seq<seq<Entry>>)
    requires Located(contents, key, start, end)
    ensures var updated := Replace(contents, key, ArrayText(objects));
            && updated.Some? && start <= |updated.value| && updated.value[..start] == contents[..start]
            && ReadArray(updated.value[start..]) == Some((objects, contents[end + 1..]))
  {
    var printed, rest := ArrayText(objects), contents[end + 1..];
    ReplaceIs(contents, key, printed, start, end);
    ArrayBack(objects, rest);
    Behind(contents[..start], printed, rest);
  }

  lemma Behind(front: string, printed: string, rest: string)
    ensures (front + printed + rest)[..|front|] == front && (front + printed + rest)[|front|..] == printed + rest
  {
  }

  lemma ArtifactsDiffer(a: seq<Artifact>, b: seq<Artifact>)
    requires ArrayText(Artifacts(a)) == ArrayText(Artifacts(b))
    ensures a == b
  {
    ArrayBack(Artifacts(a), "");
    ArrayBack(Artifacts(b), "");
    forall i | 0 <= i < |a| ensures a[i] == b[i] {
      assert ArtifactEntries(a[i]) == Artifacts(a)[i] == ArtifactEntries(b[i]);
      SameArtifact(a[i], b[i]);
    }
  }

  lemma SameArtifact(a: Artifact, b: Artifact)
    requires ArtifactEntries(a) == ArtifactEntries(b)
    ensures a == b
  {
    assert ArtifactEntries(a)[0] == ArtifactEntries(b)[0];
    assert ArtifactEntries(a)[1] == ArtifactEntries(b)[1];
    assert ArtifactEntries(a)[2] == ArtifactEntries(b)[2];
  }
}
