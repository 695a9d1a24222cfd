/**
 The composition of a base catalog with the entries of its extensions.
 */
module Overlay {
  import opened Json
  import opened Sorting
  import opened Keyed

  // A catalog entry: its `id`, where it is a mapping with a string there, and the rest.
  datatype Entry = Entry(id: Option<string>, body: Json)

  datatype Value = Entries(entries: seq<Entry>) | Other

  datatype UniqueKey = Id | Unsupported(name: string)

  datatype Rule = Rule(uniqueKey: UniqueKey, source: string, sourceKey: string, target: string, targetKey: string)

  // A parsed file; one that is not a mapping has no keys to offer.
  datatype File = Mapping(values: map<string, Value>) | NotMapping

  type Files = map<string, File>

  // The sort key: a missing id sorts as the empty string.
  function KeyOf(e: Entry): string {
    if e.id.Some? then e.id.value else ""
  }

  predicate ByKey(a: Entry, b: Entry) {
    StrLe(KeyOf(a), KeyOf(b))
  }

  // Every entry has an id and no id repeats.
  ghost predicate Mergeable(entries: seq<Entry>) {
    (forall e :: e in entries ==> e.id.Some?) && DistinctBy(KeyOf, entries)
  }

  // ----- One merge -----

  // Take the ids in one by one, refusing a missing or repeated one.
  method Admit(entries: seq<Entry>, before: seq<Entry>, seen: set<string>)
    returns (ok: bool, after: set<string>)
    requires Mergeable(before) && seen == Keys(KeyOf, before)
    ensures ok <==> Mergeable(before + entries)
    ensures ok ==> after == Keys(KeyOf, before + entries)
  {
    after := seen;
    assert before + entries[..0] == before;
    for i := 0 to |entries|
      invariant Mergeable(before + entries[..i]) && after == Keys(KeyOf, before + entries[..i])
    {
      var e := entries[i];
      assert before + entries[..i + 1] == before + entries[..i] + [e];
      DistinctSnoc(KeyOf, before + entries[..i], e);
      KeysSnoc(KeyOf, before + entries[..i], e);
      if e.id.None? || e.id.value in after {
        NotMergeable(before + entries[..i], e, entries[i + 1..]);
        assert before + entries == before + entries[..i] + [e] + entries[i + 1..];
        return false, after;
      }
      after := after + {e.id.value};
    }
    assert entries[..|entries|] == entries;
    ok := true;
  }

  lemma NotMergeable(a: seq<Entry>, e: Entry, b: seq<Entry>)
    requires e.id.None? || KeyOf(e) in Keys(KeyOf, a)
    ensures !Mergeable(a + [e] + b)
  {
    var all := a + [e] + b;
    assert all[|a|] == e;
    if e.id.Some? {
      var i :| 0 <= i < |a| && KeyOf(a[i]) == KeyOf(e);
      assert all[i] == a[i];
    }
  }

  lemma MergeablePermuted(a: seq<Entry>, b: seq<Entry>)
    requires multiset(a) == multiset(b)
    ensures Mergeable(a) <==> Mergeable(b)
  {
    forall e ensures e in a <==> e in b { assert e in multiset(a) <==> e in multiset(b); }
    KeysPermuted(KeyOf, a, b);
  }

  lemma MergeableSorted(target: seq<Entry>, source: seq<Entry>)
    ensures Mergeable(target + Sort(source, ByKey)) <==> Mergeable(target + source)
  {
    SortMultiset(source, ByKey);
    MergeablePermuted(target + Sort(source, ByKey), target + source);
  }

  lemma MergeablePrefix(a: seq<Entry>, b: seq<Entry>)
    requires Mergeable(a + b)
    ensures Mergeable(a) && Mergeable(b)
  {
    forall e | e in a ensures e.id.Some? { assert e in a + b; }
    forall e | e in b ensures e.id.Some? { assert e in a + b; }
    forall i, j | 0 <= i < j < |a| ensures KeyOf(a[i]) != KeyOf(a[j]) {
      assert a[i] == (a + b)[i] && a[j] == (a + b)[j];
    }
    forall i, j | 0 <= i < j < |b| ensures KeyOf(b[i]) != KeyOf(b[j]) {
      assert b[i] == (a + b)[|a| + i] && b[j] == (a + b)[|a| + j];
    }
  }

  class Document {
    var values: map<string, Value>

    constructor (values: map<string, Value>)
      ensures this.values == values
    {
      this.values := values;
    }

    method MergeEntries(key: string, source: seq<Entry>) returns (ok: bool)
      requires key in values && values[key].Entries?
      modifies this
      ensures ok <==> Mergeable(old(values[key].entries) + source)
      ensures values == if ok then old(values)[key := Entries(old(values[key].entries) + Sort(source, ByKey))]
                        else old(values)
    {
      var target := values[key].entries;
      var admitted, seen := Admit(target, [], {});
      assert [] + target == target;
      if !admitted {
        if Mergeable(target + source) { MergeablePrefix(target, source); }
        return false;
      }
      var additions := Sort(source, ByKey);
      MergeableSorted(target, source);
      ok, seen := Admit(additions, target, seen);
      if ok {
        values := values[key := Entries(target + additions)];
      }
    }
  }

  // ----- Sorted additions do not depend on the order they were written in -----

  lemma ByKeyTotal()
    ensures TotalPreorder(ByKey)
  {
    StrLeTotal();
    forall a, b, c | ByKey(a, b) && ByKey(b, c) ensures ByKey(a, c) {
      assert StrLe(KeyOf(a), KeyOf(b)) && StrLe(KeyOf(b), KeyOf(c));
    }
  }

  lemma SortedStrictly(source: seq<Entry>)
    requires DistinctBy(KeyOf, source)
    ensures StrictlySorted(Sort(source, ByKey), ByKey) && AntisymmetricOn(Sort(source, ByKey), ByKey)
  {
    var s := Sort(source, ByKey);
    ByKeyTotal();
    StrLeTotal();
    SortSorted(source, ByKey);
    SortMultiset(source, ByKey);
    KeysPermuted(KeyOf, s, source);
    forall i, j | 0 <= i < j < |s| ensures s[i] != s[j] { assert KeyOf(s[i]) != KeyOf(s[j]); }
    forall x, y | x in s && y in s && ByKey(x, y) && ByKey(y, x) ensures x == y {
      assert KeyOf(x) == KeyOf(y);
      var i :| 0 <= i < |s| && s[i] == x;
      var j :| 0 <= j < |s| && s[j] == y;
      assert i == j;
    }
  }

  // Any two listings of the same entries are merged alike.
  lemma AdditionsCanonical(target: seq<Entry>, source: seq<Entry>, other: seq<Entry>)
    requires multiset(source) == multiset(other)
    ensures Mergeable(target + source) <==> Mergeable(target + other)
    ensures Mergeable(target + source) ==> Sort(source, ByKey) == Sort(other, ByKey)
  {
    MergeablePermuted(target + source, target + other);
    if Mergeable(target + source) {
      MergeablePrefix(target, source);
      KeysPermuted(KeyOf, source, other);
      SortedStrictly(source);
      SortedStrictly(other);
      SortMembers(source, ByKey);
      SortMembers(other, ByKey);
      forall x ensures x in source <==> x in other { assert x in multiset(source) <==> x in multiset(other); }
      StrictlySortedUnique(Sort(source, ByKey), Sort(other, ByKey), ByKey);
    }
  }

  // ----- The whole composition -----

  predicate HasEntries(files: Files, file: string, key: string) {
    file in files && files[file].Mapping? && key in files[file].values && files[file].values[key].Entries?
  }

  function EntriesOf(files: Files, file: string, key: string): seq<Entry>
    requires HasEntries(files, file, key)
  {
    files[file].values[key].entries
  }

  predicate Usable(files: Files, rule: Rule) {
    rule.uniqueKey.Id? && HasEntries(files, rule.target, rule.targetKey)
    && HasEntries(files, rule.source, rule.sourceKey)
  }

  // The rules for one target, in plan order.
  function Chosen(rules: seq<Rule>, target: string): seq<Rule> {
    if rules == [] then []
    else
      var last := rules[|rules| - 1];
      Chosen(rules[..|rules| - 1], target) + if last.target == target then [last] else []
  }

  predicate Touched(chosen: seq<Rule>, key: string) {
    exists rule :: rule in chosen && rule.targetKey == key
  }

  ghost predicate AllUsable(files: Files, chosen: seq<Rule>) {
    forall rule :: rule in chosen ==> Usable(files, rule)
  }

  // What the rules add under a key: source by source, each sorted by id.
  function Additions(files: Files, chosen: seq<Rule>, key: string): seq<Entry>
    requires AllUsable(files, chosen)
  {
    if chosen == [] then []
    else
      var front, last := chosen[..|chosen| - 1], chosen[|chosen| - 1];
      assert last in chosen && forall rule :: rule in front ==> rule in chosen;
      Additions(files, front, key)
      + if last.targetKey == key then Sort(EntriesOf(files, last.source, last.sourceKey), ByKey) else []
  }

  // Some rule names the target, every rule can be read, and no id is missing or repeated.
  ghost predicate Composable(files: Files, chosen: seq<Rule>) {
    && chosen != []
    && AllUsable(files, chosen)
    && forall rule :: rule in chosen ==>
         Mergeable(EntriesOf(files, rule.target, rule.targetKey) + Additions(files, chosen, rule.targetKey))
  }

  // Base entries verbatim and in order, then each source's additions; the rest untouched.
  ghost predicate Composed(files: Files, target: string, chosen: seq<Rule>, values: map<string, Value>) {
    && target in files && files[target].Mapping? && AllUsable(files, chosen)
    && values.Keys == files[target].values.Keys
    && forall key :: key in values ==>
         ComposedAt(files[target].values[key], Touched(chosen, key), Additions(files, chosen, key), values[key])
  }

  ghost predicate ComposedAt(base: Value, touched: bool, additions: seq<Entry>, value: Value) {
    if touched then
      base.Entries? && value == Entries(base.entries + additions) && Mergeable(base.entries + additions)
    else value == base
  }

  // ----- The order in which sources list their entries does not matter -----

  // The same targets, and sources that list the same entries in any order.
  ghost predicate Relisted(a: Files, b: Files, rule: Rule) {
    && (Usable(a, rule) <==> Usable(b, rule))
    && (Usable(a, rule) ==>
          && EntriesOf(a, rule.target, rule.targetKey) == EntriesOf(b, rule.target, rule.targetKey)
          && multiset(EntriesOf(a, rule.source, rule.sourceKey)) == multiset(EntriesOf(b, rule.source, rule.sourceKey)))
  }

  ghost predicate AllRelisted(a: Files, b: Files, chosen: seq<Rule>) {
    forall rule :: rule in chosen ==> Relisted(a, b, rule)
  }

  lemma LastRule(a: Files, b: Files, chosen: seq<Rule>)
    requires chosen != [] && AllUsable(a, chosen) && AllRelisted(a, b, chosen)
    ensures var front, last := chosen[..|chosen| - 1], chosen[|chosen| - 1];
            && AllUsable(b, chosen) && AllUsable(a, front) && AllRelisted(a, b, front)
            && Usable(a, last) && Relisted(a, b, last)
  {
    var front, last := chosen[..|chosen| - 1], chosen[|chosen| - 1];
    assert last in chosen;
    forall rule | rule in front ensures rule in chosen {}
    forall rule | rule in chosen ensures Usable(b, rule) { assert Relisted(a, b, rule) && Usable(a, rule); }
  }

  lemma {:induction false} AdditionsRelisted(a: Files, b: Files, chosen: seq<Rule>, key: string)
    requires AllUsable(a, chosen) && AllUsable(b, chosen) && AllRelisted(a, b, chosen)
    ensures multiset(Additions(a, chosen, key)) == multiset(Additions(b, chosen, key))
    ensures Mergeable(Additions(a, chosen, key)) ==> Additions(a, chosen, key) == Additions(b, chosen, key)
  {
    if chosen != [] {
      var front, last := chosen[..|chosen| - 1], chosen[|chosen| - 1];
      LastRule(a, b, chosen);
      forall rule | rule in front ensures Usable(b, rule) { assert rule in chosen; }
      AdditionsRelisted(a, b, front, key);
      var x, y := EntriesOf(a, last.source, last.sourceKey), EntriesOf(b, last.source, last.sourceKey);
      SortMultiset(x, ByKey);
      SortMultiset(y, ByKey);
      if last.targetKey == key {
        if Mergeable(Additions(a, front, key) + Sort(x, ByKey)) { LastMergeable(Additions(a, front, key), x, y); }
      } else {
        assert Additions(a, chosen, key) == Additions(a, front, key) && Additions(b, chosen, key) == Additions(b, front, key);
      }
    }
  }

  lemma LastMergeable(front: seq<Entry>, x: seq<Entry>, y: seq<Entry>)
    requires Mergeable(front + Sort(x, ByKey)) && multiset(x) == multiset(y)
    ensures Mergeable(front) && Sort(x, ByKey) == Sort(y, ByKey)
  {
    MergeablePrefix(front, Sort(x, ByKey));
    SortMultiset(x, ByKey);
    MergeablePermuted(front + Sort(x, ByKey), x + front);
    MergeablePrefix(x, front);
    assert [] + x == x;
    AdditionsCanonical([], x, y);
  }

  // The same target, and sources that list the same in another order.
  ghost predicate Reordered(a: Files, b: Files, target: string, chosen: seq<Rule>) {
    AllRelisted(a, b, chosen) && target in a && target in b && a[target] == b[target]
  }

  // The whole composition depends on what the sources list, not on the order they list it in.
  lemma CompositionCanonical(a: Files, b: Files, target: string, chosen: seq<Rule>)
    requires Reordered(a, b, target, chosen) && forall rule :: rule in chosen ==> rule.target == target
    ensures Composable(a, chosen) <==> Composable(b, chosen)
    ensures forall values :: Composed(a, target, chosen, values) <==> Composed(b, target, chosen, values)
  {
    forall rule | rule in chosen ensures Usable(a, rule) <==> Usable(b, rule) { assert Relisted(a, b, rule); }
    if AllUsable(a, chosen) {
      forall key ensures SameAdditions(a, b, chosen, key) { AdditionsAgree(a, b, chosen, key); }
      forall rule | rule in chosen
        ensures Mergeable(EntriesOf(a, rule.target, rule.targetKey) + Additions(a, chosen, rule.targetKey))
                <==> Mergeable(EntriesOf(b, rule.target, rule.targetKey) + Additions(b, chosen, rule.targetKey))
      {
        assert Relisted(a, b, rule) && SameAdditions(a, b, chosen, rule.targetKey);
      }
      forall values ensures Composed(a, target, chosen, values) <==> Composed(b, target, chosen, values) {
        forall key | a[target].Mapping? && key in values && key in a[target].values
          ensures ComposedAt(a[target].values[key], Touched(chosen, key), Additions(a, chosen, key), values[key])
                  <==> ComposedAt(b[target].values[key], Touched(chosen, key), Additions(b, chosen, key), values[key])
        {
          assert SameAdditions(a, b, chosen, key);
        }
      }
    }
  }

  // Under every base list the additions are mergeable alike, and then they are the same.
  ghost predicate SameAdditions(a: Files, b: Files, chosen: seq<Rule>, key: string)
    requires AllUsable(a, chosen) && AllUsable(b, chosen)
  {
    forall base: seq<Entry> ::
      && (Mergeable(base + Additions(a, chosen, key)) <==> Mergeable(base + Additions(b, chosen, key)))
      && (Mergeable(base + Additions(a, chosen, key)) ==> Additions(a, chosen, key) == Additions(b, chosen, key))
  }

  lemma AdditionsAgree(a: Files, b: Files, chosen: seq<Rule>, key: string)
    requires AllUsable(a, chosen) && AllUsable(b, chosen) && AllRelisted(a, b, chosen)
    ensures SameAdditions(a, b, chosen, key)
  {
    var x, y := Additions(a, chosen, key), Additions(b, chosen, key);
    AdditionsRelisted(a, b, chosen, key);
    forall base: seq<Entry> ensures Mergeable(base + x) <==> Mergeable(base + y)
      ensures Mergeable(base + x) ==> x == y
    {
      MergeablePermuted(base + x, base + y);
      if Mergeable(base + x) {
        MergeablePermuted(base + x, x + base);
        MergeablePrefix(x, base);
      }
    }
  }

  lemma ChosenStep(rules: seq<Rule>, i: nat, target: string)
    requires i < |rules|
    ensures Chosen(rules[..i + 1], target)
            == Chosen(rules[..i], target) + if rules[i].target == target then [rules[i]] else []
  {
    assert rules[..i + 1][..i] == rules[..i];
  }

  lemma {:induction false} ChosenPrefix(rules: seq<Rule>, i: nat, target: string)
    requires i <= |rules|
    ensures Chosen(rules[..i], target) <= Chosen(rules, target)
    decreases |rules| - i
  {
    if i == |rules| {
      assert rules[..i] == rules;
    } else {
      ChosenPrefix(rules, i + 1, target);
      ChosenStep(rules, i, target);
    }
  }

  lemma {:induction false} AdditionsPrefix(files: Files, few: seq<Rule>, many: seq<Rule>, key: string)
    requires few <= many && AllUsable(files, many)
    ensures AllUsable(files, few) && Additions(files, few, key) <= Additions(files, many, key)
    decreases |many|
  {
    forall rule | rule in few ensures rule in many {}
    if few != many {
      var front := many[..|many| - 1];
      forall rule | rule in front ensures rule in many {}
      AdditionsPrefix(files, few, front, key);
    }
  }

  lemma AdditionsSnoc(files: Files, chosen: seq<Rule>, rule: Rule, key: string)
    requires AllUsable(files, chosen + [rule])
    ensures AllUsable(files, chosen) && Usable(files, rule)
    ensures Additions(files, chosen + [rule], key)
            == Additions(files, chosen, key)
               + if rule.targetKey == key then Sort(EntriesOf(files, rule.source, rule.sourceKey), ByKey) else []
  {
    assert (chosen + [rule])[..|chosen|] == chosen;
    assert rule in chosen + [rule];
    forall r | r in chosen ensures r in chosen + [rule] {}
  }

  // A rule whose ids clash spoils every longer list of rules.
  lemma NotComposable(files: Files, few: seq<Rule>, rule: Rule, many: seq<Rule>)
    requires few + [rule] <= many && AllUsable(files, few + [rule]) && Usable(files, rule)
    requires !Mergeable(EntriesOf(files, rule.target, rule.targetKey)
                        + Additions(files, few + [rule], rule.targetKey))
    ensures !Composable(files, many)
  {
    assert many[|few|] == rule;
    if AllUsable(files, many) {
      AdditionsPrefix(files, few + [rule], many, rule.targetKey);
      MergeableLonger(EntriesOf(files, rule.target, rule.targetKey),
                      Additions(files, few + [rule], rule.targetKey), Additions(files, many, rule.targetKey));
    }
  }

  lemma MergeableLonger(base: seq<Entry>, some: seq<Entry>, all: seq<Entry>)
    requires some <= all && !Mergeable(base + some)
    ensures !Mergeable(base + all)
  {
    assert base + all == base + some + all[|some|..];
    if Mergeable(base + all) { MergeablePrefix(base + some, all[|some|..]); }
  }

  lemma ComposedStep(files: Files, target: string, chosen: seq<Rule>, rule: Rule,
                     values: map<string, Value>, after: map<string, Value>)
    requires Composed(files, target, chosen, values) && Usable(files, rule) && rule.target == target
    requires rule.targetKey in values && values[rule.targetKey].Entries?
    requires var source := EntriesOf(files, rule.source, rule.sourceKey);
             var before := values[rule.targetKey].entries;
             Mergeable(before + source) && after == values[rule.targetKey := Entries(before + Sort(source, ByKey))]
    ensures Composed(files, target, chosen + [rule], after)
  {
    var more := chosen + [rule];
    assert AllUsable(files, more);
    var source := EntriesOf(files, rule.source, rule.sourceKey);
    forall key | key in after
      ensures ComposedAt(files[target].values[key], Touched(more, key), Additions(files, more, key), after[key])
    {
      AdditionsSnoc(files, chosen, rule, key);
      TouchedSnoc(chosen, rule, key);
      if key == rule.targetKey {
        CurrentEntries(files, target, chosen, key, values);
        MergedEntries(EntriesOf(files, target, key), Additions(files, chosen, key), source);
      } else {
        assert Additions(files, more, key) == Additions(files, chosen, key);
        assert ComposedAt(files[target].values[key], Touched(chosen, key), Additions(files, chosen, key), values[key]);
      }
    }
  }

  lemma MergedEntries(base: seq<Entry>, additions: seq<Entry>, source: seq<Entry>)
    ensures base + (additions + Sort(source, ByKey)) == base + additions + Sort(source, ByKey)
    ensures Mergeable(base + (additions + Sort(source, ByKey))) <==> Mergeable(base + additions + source)
  {
    assert base + (additions + Sort(source, ByKey)) == base + additions + Sort(source, ByKey);
    MergeableSorted(base + additions, source);
  }

  lemma TouchedSnoc(chosen: seq<Rule>, rule: Rule, key: string)
    ensures Touched(chosen + [rule], key) <==> Touched(chosen, key) || rule.targetKey == key
  {
    assert rule in chosen + [rule];
    if Touched(chosen, key) {
      var r :| r in chosen && r.targetKey == key;
      assert r in chosen + [rule];
    }
  }

  // Touched or not, a usable key holds its base entries and the additions so far.
  lemma CurrentEntries(files: Files, target: string, chosen: seq<Rule>, key: string, values: map<string, Value>)
    requires Composed(files, target, chosen, values) && HasEntries(files, target, key)
    ensures key in values
    ensures values[key] == Entries(EntriesOf(files, target, key) + Additions(files, chosen, key))
  {
    assert ComposedAt(files[target].values[key], Touched(chosen, key), Additions(files, chosen, key), values[key]);
    if !Touched(chosen, key) {
      NothingAdded(files, chosen, key);
      assert EntriesOf(files, target, key) + [] == EntriesOf(files, target, key);
    }
  }

  lemma {:induction false} NothingAdded(files: Files, chosen: seq<Rule>, key: string)
    requires AllUsable(files, chosen) && !Touched(chosen, key)
    ensures Additions(files, chosen, key) == []
  {
    if chosen != [] {
      var front, last := chosen[..|chosen| - 1], chosen[|chosen| - 1];
      assert chosen == front + [last];
      TouchedSnoc(front, last, key);
      AdditionsSnoc(files, front, last, key);
      NothingAdded(files, front, key);
    }
  }

  lemma ComposedComposable(files: Files, target: string, chosen: seq<Rule>, values: map<string, Value>)
    requires Composed(files, target, chosen, values) && chosen != []
    requires forall rule :: rule in chosen ==> rule.target == target
    ensures Composable(files, chosen)
  {
    forall rule | rule in chosen
      ensures Mergeable(EntriesOf(files, rule.target, rule.targetKey) + Additions(files, chosen, rule.targetKey))
    {
      assert Usable(files, rule);
      assert Touched(chosen, rule.targetKey);
      assert rule.targetKey in values;
      assert ComposedAt(files[target].values[rule.targetKey], true, Additions(files, chosen, rule.targetKey),
                        values[rule.targetKey]);
    }
  }

  lemma StartsComposed(files: Files, target: string)
    requires target in files && files[target].Mapping?
    ensures Composed(files, target, [], files[target].values)
  {
  }

  // The document under construction: not read yet, or composed from the rules so far.
  ghost predicate Building(files: Files, target: string, chosen: seq<Rule>, document: Document?)
    reads document
  {
    if document == null then chosen == []
    else chosen != [] && Composed(files, target, chosen, document.values)
  }

  lemma ReorderedAlike(files: Files, rules: seq<Rule>, target: string)
    ensures forall other :: Reordered(files, other, target, Chosen(rules, target)) ==>
              (Composable(files, Chosen(rules, target)) <==> Composable(other, Chosen(rules, target)))
              && forall values :: Composed(files, target, Chosen(rules, target), values) <==>
                                  Composed(other, target, Chosen(rules, target), values)
  {
    var chosen := Chosen(rules, target);
    forall other | Reordered(files, other, target, chosen)
      ensures Composable(files, chosen) <==> Composable(other, chosen)
      ensures forall values :: Composed(files, target, chosen, values) <==> Composed(other, target, chosen, values)
    {
      ChosenTargets(rules, target);
      CompositionCanonical(files, other, target, chosen);
    }
  }

  method ComposeTarget(files: Files, rules: seq<Rule>, target: string) returns (r: Option<map<string, Value>>)
    ensures r.Some? <==> Composable(files, Chosen(rules, target))
    ensures r.Some? ==> Composed(files, target, Chosen(rules, target), r.value)
    ensures forall other :: Reordered(files, other, target, Chosen(rules, target)) ==>
              (r.Some? <==> Composable(other, Chosen(rules, target)))
              && (r.Some? ==> Composed(other, target, Chosen(rules, target), r.value))
  {
    ReorderedAlike(files, rules, target);
    var document: Document? := null;
    ghost var all, chosen := Chosen(rules, target), [];
    for i := 0 to |rules|
      invariant document != null ==> fresh(document)
      invariant chosen == Chosen(rules[..i], target)
      invariant Building(files, target, chosen, document)
    {
      ChosenNext(rules, i, target);
      if rules[i].target == target {
        var ok;
        ok, document := ApplyRule(files, rules[i], document, chosen, all);
        if !ok { return None; }
        chosen := chosen + [rules[i]];
      }
    }
    assert rules[..|rules|] == rules;
    if document == null { return None; }
    ChosenTargets(rules, target);
    ComposedComposable(files, target, all, document.values);
    r := Some(document.values);
  }

  lemma ChosenNext(rules: seq<Rule>, i: nat, target: string)
    requires i < |rules|
    ensures rules[i].target != target ==> Chosen(rules[..i + 1], target) == Chosen(rules[..i], target)
    ensures rules[i].target == target ==>
              Chosen(rules[..i + 1], target) == Chosen(rules[..i], target) + [rules[i]] <= Chosen(rules, target)
  {
    ChosenStep(rules, i, target);
    ChosenPrefix(rules, i + 1, target);
  }

  lemma {:induction false} ChosenTargets(rules: seq<Rule>, target: string)
    ensures forall rule :: rule in Chosen(rules, target) ==> rule.target == target
  {
    if rules != [] { ChosenTargets(rules[..|rules| - 1], target); }
  }

  method ApplyRule(files: Files, rule: Rule, document: Document?, ghost chosen: seq<Rule>, ghost all: seq<Rule>)
    returns (ok: bool, next: Document?)
    requires Building(files, rule.target, chosen, document) && chosen + [rule] <= all
    modifies document
    ensures next == document || (document == null && next != null && fresh(next))
    ensures ok ==> Building(files, rule.target, chosen + [rule], next)
    ensures !ok ==> !Composable(files, all)
  {
    next := document;
    if !Usable(files, rule) {
      NotUsable(files, chosen, rule, all);
      return false, next;
    }
    if next == null {
      next := new Document(files[rule.target].values);
      StartsComposed(files, rule.target);
    }
    ok := MergeRule(files, rule, next, chosen, all);
  }

  lemma NotUsable(files: Files, few: seq<Rule>, rule: Rule, many: seq<Rule>)
    requires !Usable(files, rule) && few + [rule] <= many
    ensures !Composable(files, many)
  {
    assert many[|few|] == rule;
  }

  method MergeRule(files: Files, rule: Rule, document: Document, ghost chosen: seq<Rule>, ghost all: seq<Rule>)
    returns (ok: bool)
    requires Usable(files, rule) && Composed(files, rule.target, chosen, document.values)
    requires chosen + [rule] <= all
    modifies document
    ensures ok ==> Composed(files, rule.target, chosen + [rule], document.values)
    ensures !ok ==> !Composable(files, all) && document.values == old(document.values)
  {
    CurrentEntries(files, rule.target, chosen, rule.targetKey, document.values);
    ghost var before := document.values;
    ghost var base := EntriesOf(files, rule.target, rule.targetKey);
    ghost var additions := Additions(files, chosen, rule.targetKey);
    var source := files[rule.source].values[rule.sourceKey].entries;
    ok := document.MergeEntries(rule.targetKey, source);
    if ok {
      ComposedStep(files, rule.target, chosen, rule, before, document.values);
    } else {
      assert AllUsable(files, chosen + [rule]);
      AdditionsSnoc(files, chosen, rule, rule.targetKey);
      MergedEntries(base, additions, source);
      NotComposable(files, chosen, rule, all);
    }
  }

  // ----- The order of the additions, on ids -----

  lemma EntryOrder()
    ensures TotalPreorder(ByKey)
  {
    StrLeTotal();
    forall x, y ensures ByKey(x, y) || ByKey(y, x) { assert StrLe(KeyOf(x), KeyOf(y)) || StrLe(KeyOf(y), KeyOf(x)); }
    forall x, y, z | ByKey(x, y) && ByKey(y, z) ensures ByKey(x, z) { assert StrLe(KeyOf(x), KeyOf(y)) && StrLe(KeyOf(y), KeyOf(z)); }
  }

  // With one more rule its source comes last: the same entries, by ascending ids.
  lemma AdditionsByIds(files: Files, chosen: seq<Rule>, rule: Rule, key: string) returns (block: seq<Entry>)
    requires AllUsable(files, chosen + [rule])
    ensures Usable(files, rule) && AllUsable(files, chosen)
    ensures Additions(files, chosen + [rule], key) == Additions(files, chosen, key) + block
    ensures rule.targetKey != key ==> block == []
    ensures rule.targetKey == key ==> multiset(block) == multiset(EntriesOf(files, rule.source, rule.sourceKey))
    ensures forall i, j :: 0 <= i < j < |block| && block[i].id.Some? && block[j].id.Some? ==>
              block[i].id == block[j].id || StrLess(block[i].id.value, block[j].id.value)
  {
    assert (chosen + [rule])[..|chosen|] == chosen;
    assert rule in chosen + [rule];
    forall r | r in chosen ensures r in chosen + [rule] {}
    var entries := EntriesOf(files, rule.source, rule.sourceKey);
    block := if rule.targetKey == key then Sort(entries, ByKey) else [];
    EntryOrder();
    SortSorted(entries, ByKey);
    SortMultiset(entries, ByKey);
    forall i, j | 0 <= i < j < |block| && block[i].id.Some? && block[j].id.Some?
      ensures block[i].id == block[j].id || StrLess(block[i].id.value, block[j].id.value)
    {
      assert ByKey(block[i], block[j]);
    }
  }

  // The rules for a target are those that name it, in the order they come in.
  lemma {:induction false} ChosenExactly(rules: seq<Rule>, target: string)
    ensures forall rule :: rule in Chosen(rules, target) <==> rule in rules && rule.target == target
  {
    if rules != [] {
      ChosenExactly(rules[..|rules| - 1], target);
      assert rules == rules[..|rules| - 1] + [rules[|rules| - 1]];
    }
  }

  lemma {:induction false} ChosenConcat(a: seq<Rule>, b: seq<Rule>, target: string)
    ensures Chosen(a + b, target) == Chosen(a, target) + Chosen(b, target)
  {
    if b == [] {
      assert a + b == a;
    } else {
      var front, last := b[..|b| - 1], b[|b| - 1];
      ChosenConcat(a, front, target);
      assert (a + b)[..|a + b| - 1] == a + front && (a + b)[|a + b| - 1] == last;
      var end := if last.target == target then [last] else [];
      assert Chosen(a, target) + Chosen(front, target) + end == Chosen(a, target) + (Chosen(front, target) + end);
    }
  }

  // The file is there and has a list under the key.
  predicate Offers(files: Files, file: string, key: string, entries: seq<Entry>) {
    file in files && files[file].Mapping? && key in files[file].values && files[file].values[key] == Entries(entries)
  }

  ghost predicate Identified(entries: seq<Entry>) {
    && (forall i :: 0 <= i < |entries| ==> entries[i].id.Some?)
    && (forall i, j :: 0 <= i < j < |entries| ==> entries[i].id != entries[j].id)
  }

  lemma MergeableExactly(entries: seq<Entry>)
    ensures Mergeable(entries) <==> Identified(entries)
  {
    if Identified(entries) {
      forall i, j | 0 <= i < j < |entries| ensures KeyOf(entries[i]) != KeyOf(entries[j]) {}
    }
    if Mergeable(entries) {
      forall i, j | 0 <= i < j < |entries| ensures entries[i].id != entries[j].id {
        assert KeyOf(entries[i]) != KeyOf(entries[j]);
      }
    }
  }

  lemma UsableExactly(files: Files, rule: Rule)
    ensures Usable(files, rule) <==>
            && rule.uniqueKey == Id && (exists entries :: Offers(files, rule.target, rule.targetKey, entries))
            && exists entries :: Offers(files, rule.source, rule.sourceKey, entries)
  {
    if Usable(files, rule) {
      assert Offers(files, rule.target, rule.targetKey, EntriesOf(files, rule.target, rule.targetKey));
      assert Offers(files, rule.source, rule.sourceKey, EntriesOf(files, rule.source, rule.sourceKey));
    }
  }
}
