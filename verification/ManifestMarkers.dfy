/**
 Where the markers of counts can and cannot stand: never inside a printed array of records.
 */
module ManifestMarkers {
  import opened Json
  import opened Text
  import opened ArrayScanner
  import opened RecordReader
  import opened ManifestText
  import opened ManifestReadBack
  import opened ManifestCounts

  predicate KeyChar(c: char) {
    'a' <= c <= 'z' || c == '_'
  }

  /** A key as the manifests have them. */
  predicate PlainKey(key: string) {
    key != "" && forall i :: 0 <= i < |key| ==> KeyChar(key[i])
  }

  /** A name that is printed as it is. */
  predicate Simple(name: string) {
    forall i :: 0 <= i < |name| ==> name[i] >= ' ' && name[i] != '"' && name[i] != '\\'
  }

  /** No record has a field of that name. */
  ghost predicate NoField(objects: seq<seq<Entry>>, key: string) {
    forall i, j :: 0 <= i < |objects| && 0 <= j < |objects[i]| ==> Simple(objects[i][j].name) && objects[i][j].name != key
  }

  ghost predicate Clean(t: string, key: string) {
    forall i: nat :: !Matches(t, CountMarker(key), i)
  }

  lemma MarkerChars(key: string)
    requires PlainKey(key)
    ensures var m := CountMarker(key);
            && |m| == |key| + 4 && m[0] == '"' && m[|key| + 1] == '"' && m[|key| + 2] == ':' && m[|key| + 3] == ' '
            && (forall i :: 0 <= i < |key| ==> m[i + 1] == key[i])
            && (forall i :: 0 <= i < |m| ==> KeyChar(m[i]) || m[i] == '"' || m[i] == ':' || m[i] == ' ')
  {
  }

  lemma CharAt(t: string, pattern: string, i: nat, j: nat)
    requires Matches(t, pattern, i) && j < |pattern|
    ensures i + j < |t| && t[i + j] == pattern[j]
  {
    assert t[i..i + |pattern|][j] == pattern[j];
  }

  lemma NoQuoteClean(t: string, key: string)
    requires PlainKey(key) && '"' !in t
    ensures Clean(t, key)
  {
    MarkerChars(key);
    forall i: nat | Matches(t, CountMarker(key), i) ensures false { CharAt(t, CountMarker(key), i, 0); }
  }

  /** A marker lies within one line. */
  lemma CleanLines(a: string, b: string, key: string)
    requires PlainKey(key) && Clean(a, key) && Clean(b, key)
    ensures Clean(a + "\n" + b, key)
  {
    var t, m := a + "\n" + b, CountMarker(key);
    MarkerChars(key);
    forall i: nat | Matches(t, m, i) ensures false {
      if i + |m| <= |a| {
        MatchesMove(t, i, a, i, m);
      } else if i > |a| {
        MatchesMove(t, i, b, i - |a| - 1, m);
      } else {
        CharAt(t, m, i, |a| - i);
      }
    }
  }

  // ----- One line of a record

  lemma {:induction false} SimpleText(name: string)
    requires Simple(name)
    ensures UnitsText(Units(name)) == name
  {
    if name != "" {
      SimpleText(name[1..]);
      UnitsTextConcat(CharUnits(name[0]), Units(name[1..]));
      assert CharUnits(name[0]) == [Char(name[0])];
      OneUnit(Char(name[0]));
    }
  }

  /** Inside a string every quote follows a backslash. */
  lemma {:induction false} QuotesEscaped(units: seq<Unit>, m: nat)
    requires (forall u :: u in units ==> Wellformed(u)) && m < |UnitsText(units)| && UnitsText(units)[m] == '"'
    ensures m >= 1 && UnitsText(units)[m - 1] == '\\'
  {
    var u := units[0];
    assert u in units;
    if m >= |UnitText(u)| {
      QuotesEscaped(units[1..], m - |UnitText(u)|);
    }
  }

  lemma WordClean(s: string, tail: string, key: string)
    requires PlainKey(key) && (tail == "" || tail == ",")
    ensures Clean(JsonString(s) + tail, key)
  {
    UnitsWellformed(s);
    QuotedClean(Units(s), UnitsText(Units(s)), tail, key);
  }

  lemma QuotedClean(units: seq<Unit>, r: string, tail: string, key: string)
    requires (forall u :: u in units ==> Wellformed(u)) && r == UnitsText(units)
    requires PlainKey(key) && (tail == "" || tail == ",")
    ensures Clean("\"" + r + "\"" + tail, key)
  {
    var t, m := "\"" + r + "\"" + tail, CountMarker(key);
    MarkerChars(key);
    forall i: nat | Matches(t, m, i) ensures false {
      var j := i + 1 + |key|;
      CharAt(t, m, i, |key|);
      CharAt(t, m, i, |key| + 1);
      CharAt(t, m, i, |key| + 2);
      if j <= |r| { QuotesEscaped(units, j - 1); }
    }
  }

  lemma ItemClean(item: Item, tail: string, key: string)
    requires PlainKey(key) && (tail == "" || tail == ",")
    ensures Clean(ItemText(item) + tail, key)
  {
    match item
    case Word(s) => WordClean(s, tail, key);
    case Count(n) =>
      DecimalPlain(n);
      NoQuoteClean(Decimal(n) + tail, key);
  }

  /** Two names between quotes at the same place are the same. */
  lemma SameName(t: string, m: string, q: nat, name: string, key: string)
    requires m == CountMarker(key) && PlainKey(key) && Simple(name) && Matches(t, m, q)
    requires q + |name| + 1 < |t| && t[q + |name| + 1] == '"' && t[q + 1..q + 1 + |name|] == name
    ensures name == key
  {
    MarkerChars(key);
    forall i | 0 <= i < |key| ensures t[q + 1 + i] == key[i] { CharAt(t, m, q, i + 1); }
    CharAt(t, m, q, |key| + 1);
    forall i | 0 <= i < |name| ensures t[q + 1 + i] == name[i] { assert t[q + 1..q + 1 + |name|][i] == name[i]; }
    assert t[q + 1..q + 1 + |name|] == key;
  }

  /** A line with a name in quotes at `q`, and what follows it. */
  ghost predicate NamedAt(t: string, q: nat, name: string, rest: string) {
    var n := q + |name| + 1;
    && n + 3 + |rest| == |t| && t[q] == '"' && t[q + 1..n] == name && t[n] == '"' && t[n + 1] == ':'
    && (forall i :: 0 <= i < q || i == n + 2 ==> t[i] != '"') && t[n + 3..] == rest
  }

  lemma NamedLine(blank: string, name: string, rest: string)
    requires '"' !in blank
    ensures NamedAt(blank + "\"" + name + "\"" + ": " + rest, |blank|, name, rest)
  {
    var t, q := blank + "\"" + name + "\"" + ": " + rest, |blank|;
    assert t[q + 1..q + 1 + |name|] == name;
    assert t[q + |name| + 4..] == rest;
    forall i | 0 <= i < q ensures t[i] != '"' { assert t[i] == blank[i]; }
  }

  lemma NoMarkerIn(t: string, q: nat, name: string, rest: string, key: string, i: nat)
    requires PlainKey(key) && Simple(name) && name != key && NamedAt(t, q, name, rest) && Clean(rest, key)
    ensures !Matches(t, CountMarker(key), i)
  {
    var m, n := CountMarker(key), q + |name| + 1;
    forall x | q < x < n ensures t[x] == name[x - q - 1] { assert t[q + 1..n][x - q - 1] == t[x]; }
    if Matches(t, m, i) {
      MarkerChars(key);
      CharAt(t, m, i, 0);
      CharAt(t, m, i, 1);
      if i == q {
        SameName(t, m, q, name, key);
      } else if i > n + 2 {
        forall x | i <= x < |t| ensures t[x] == rest[x - n - 3] { assert t[n + 3..][x - n - 3] == t[x]; }
        MatchesMove(t, i, rest, i - n - 3, m);
      }
    }
  }

  lemma NamedClean(blank: string, name: string, rest: string, key: string)
    requires PlainKey(key) && Simple(name) && name != key && '"' !in blank && Clean(rest, key)
    ensures Clean(blank + "\"" + name + "\"" + ": " + rest, key)
  {
    NamedLine(blank, name, rest);
    var t := blank + "\"" + name + "\"" + ": " + rest;
    forall i: nat ensures !Matches(t, CountMarker(key), i) { NoMarkerIn(t, |blank|, name, rest, key, i); }
  }

  lemma EntryClean(e: Entry, tail: string, key: string)
    requires PlainKey(key) && Simple(e.name) && e.name != key && (tail == "" || tail == ",")
    ensures exists line :: EntryText(e) + tail == "\n" + line && Clean(line, key)
  {
    ItemClean(e.item, tail, key);
    SimpleText(e.name);
    LineClean(e.name, ItemText(e.item), tail, key);
  }

  lemma LineClean(name: string, item: string, tail: string, key: string)
    requires PlainKey(key) && Simple(name) && name != key && Clean(item + tail, key)
    ensures exists line :: INDENT + ("\"" + name + "\"") + ": " + item + tail == "\n" + line && Clean(line, key)
  {
    NamedClean("      ", name, item + tail, key);
    EntryLine(name, item, tail);
  }

  lemma EntryLine(name: string, item: string, tail: string)
    ensures "\n      " + ("\"" + name + "\"") + ": " + item + tail
            == "\n" + ("      " + "\"" + name + "\"" + ": " + (item + tail))
  {
  }

  // ----- Records and the array

  lemma {:induction false} EntriesClean(lead: string, es: seq<Entry>, tail: string, key: string)
    requires PlainKey(key) && '"' !in lead && (tail == "" || tail == ",")
    requires forall j :: 0 <= j < |es| ==> Simple(es[j].name) && es[j].name != key
    ensures Clean(lead + Joined(EntryTexts(es), ",") + tail, key)
  {
    if es == [] {
      NoQuoteClean(lead + "" + tail, key);
    } else {
      var front, last := es[..|es| - 1], es[|es| - 1];
      EntryClean(last, tail, key);
      var line :| EntryText(last) + tail == "\n" + line && Clean(line, key);
      if |es| == 1 {
        NoQuoteClean(lead, key);
        CleanLines(lead, line, key);
        Pair(lead, EntryText(last), tail);
        Pair(lead, "\n", line);
      } else {
        EntriesClean(lead, front, ",", key);
        assert EntryTexts(es)[..|es| - 1] == EntryTexts(front);
        CleanLines(lead + Joined(EntryTexts(front), ",") + ",", line, key);
        SnocLine(lead, Joined(EntryTexts(front), ","), ",", EntryText(last), tail, line);
      }
    }
  }

  lemma SnocLine(lead: string, front: string, sep: string, last: string, tail: string, line: string)
    requires last + tail == "\n" + line
    ensures lead + (front + sep + last) + tail == (lead + front + sep) + "\n" + line
  {
    assert lead + (front + sep + last) + tail == (lead + front + sep) + (last + tail);
  }

  lemma ObjectClean(lead: string, es: seq<Entry>, tail: string, key: string)
    requires PlainKey(key) && '"' !in lead && '"' !in tail
    requires forall j :: 0 <= j < |es| ==> Simple(es[j].name) && es[j].name != key
    ensures Clean(lead + ObjectText(es) + tail, key)
  {
    var body := Joined(EntryTexts(es), ",");
    EntriesClean(lead + "    {", es, "", key);
    NoQuoteClean("    }" + tail, key);
    CleanLines(lead + "    {" + body + "", "    }" + tail, key);
    ObjectLines(lead, body, tail);
  }

  lemma ObjectLines(lead: string, body: string, tail: string)
    ensures lead + ("    {" + body + "\n    }") + tail == (lead + "    {" + body + "") + "\n" + ("    }" + tail)
  {
  }

  lemma {:induction false} ObjectsClean(lead: string, objects: seq<seq<Entry>>, tail: string, key: string)
    requires PlainKey(key) && '"' !in lead && '"' !in tail && NoField(objects, key)
    ensures Clean(lead + Joined(Texts(objects), ",\n") + tail, key)
  {
    if objects == [] {
      NoQuoteClean(lead + "" + tail, key);
    } else {
      var front, last := objects[..|objects| - 1], objects[|objects| - 1];
      if |objects| == 1 {
        ObjectClean(lead, last, tail, key);
      } else {
        ObjectsClean(lead, front, ",", key);
        ObjectClean("", last, tail, key);
        assert Texts(objects)[..|objects| - 1] == Texts(front);
        var joined := Joined(Texts(front), ",\n");
        CleanLines(lead + joined + ",", "" + ObjectText(last) + tail, key);
        ObjectsLines(lead, joined, ObjectText(last), tail);
      }
    }
  }

  lemma ObjectsLines(lead: string, front: string, last: string, tail: string)
    ensures lead + (front + ",\n" + last) + tail == (lead + front + ",") + "\n" + ("" + last + tail)
  {
  }

  /** No count marker falls inside a printed array whose records have no such field. */
  lemma ArrayClean(objects: seq<seq<Entry>>, key: string)
    requires PlainKey(key) && NoField(objects, key)
    ensures Clean(ArrayText(objects), key)
  {
    var body := Joined(Texts(objects), ",\n");
    ObjectsClean("", objects, "", key);
    NoQuoteClean("[", key);
    NoQuoteClean("  ]", key);
    CleanLines("[", "" + body + "", key);
    CleanLines("[" + "\n" + ("" + body + ""), "  ]", key);
    ArrayLines(body);
  }

  lemma ArrayLines(body: string)
    ensures "[\n" + body + "\n  ]" == ("[" + "\n" + ("" + body + "")) + "\n" + "  ]"
  {
  }
}
