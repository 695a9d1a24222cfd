/**
 The run that fills the evidence ledger of one generated profile, step by step.
 */
module ProfileRun {
  import opened Ledger
  import opened LedgerExact

  function SkipAll(names: seq<Check>, plan: Plan): seq<Entry> {
    seq(|names|, i requires 0 <= i < |names| => Skip(names[i], Needed(plan, names[i])))
  }

  function BlockAll(names: seq<Check>): seq<Entry> {
    seq(|names|, i requires 0 <= i < |names| => Block(names[i]))
  }

  class Checks {
    var entries: seq<Entry>

    constructor ()
      ensures entries == []
    {
      entries := [];
    }

    method Record(name: Check, ok: bool) returns (success: bool)
      modifies this
      ensures entries == old(entries) + [Checked(name, ok)] && success == ok
    {
      entries := entries + [Entry(name, true, true, if ok then Passed else Failed, ok)];
      success := ok;
    }

    method RecordSkipped(name: Check, required: bool)
      modifies this
      ensures entries == old(entries) + [Skip(name, required)]
    {
      entries := entries + [Entry(name, required, false, Skipped, false)];
    }

    method RecordBlocked(name: Check)
      modifies this
      ensures entries == old(entries) + [Block(name)]
    {
      entries := entries + [Entry(name, true, false, Blocked, false)];
    }

    method SkipChecks(names: seq<Check>, plan: Plan)
      modifies this
      ensures entries == old(entries) + SkipAll(names, plan)
    {
      for i := 0 to |names|
        invariant entries == old(entries) + SkipAll(names[..i], plan)
      {
        RecordSkipped(names[i], names[i] != WebE2eSmoke || plan.e2e);
        assert SkipAll(names[..i + 1], plan)
            == SkipAll(names[..i], plan) + [Skip(names[i], Needed(plan, names[i]))];
      }
      assert names[..|names|] == names;
    }

    method BlockChecks(names: seq<Check>)
      modifies this
      ensures entries == old(entries) + BlockAll(names)
    {
      for i := 0 to |names|
        invariant entries == old(entries) + BlockAll(names[..i])
      {
        RecordBlocked(names[i]);
        assert BlockAll(names[..i + 1]) == BlockAll(names[..i]) + [Block(names[i])];
      }
      assert names[..|names|] == names;
    }

    // An expected name recorded nowhere before, now as skipped.
    static ghost predicate Appended(before: seq<Entry>, entries: seq<Entry>, j: int, expected: seq<Check>, plan: Plan)
      requires |before| <= j < |entries|
    {
      var e := entries[j];
      e == Skip(e.name, Needed(plan, e.name)) && e.name in expected && e.name !in Names(entries[..j])
    }

    // Every expected name the run has not recorded is appended as skipped, once.
    method FillMissing(expected: seq<Check>, plan: Plan)
      modifies this
      ensures old(entries) <= entries
      ensures forall n :: n in expected ==> n in Names(entries)
      ensures forall j :: |old(entries)| <= j < |entries| ==> Appended(old(entries), entries, j, expected, plan)
      ensures (forall n :: n in expected ==> n in Names(old(entries))) ==> entries == old(entries)
    {
      for i := 0 to |expected|
        invariant old(entries) <= entries
        invariant forall n :: n in expected[..i] ==> n in Names(entries)
        invariant forall j :: |old(entries)| <= j < |entries| ==> Appended(old(entries), entries, j, expected, plan)
        invariant (forall n :: n in expected ==> n in Names(old(entries))) ==> entries == old(entries)
      {
        var before := entries;
        if expected[i] !in Names(entries) {
          RecordSkipped(expected[i], expected[i] != WebE2eSmoke || plan.e2e);
          NamesAppend(before, [Skip(expected[i], expected[i] != WebE2eSmoke || plan.e2e)]);
          assert Names(entries)[|before|] == expected[i];
          forall j | |old(entries)| <= j < |entries| ensures Appended(old(entries), entries, j, expected, plan) {
            assert entries[..j] == before[..j];
            if j < |before| {
              assert Appended(old(entries), before, j, expected, plan);
            } else {
              assert before[..j] == before;
            }
          }
        }
      }
    }

    predicate CheckPassed(name: Check)
      reads this
    {
      HasPassed(entries, name)
    }
  }

  class Evidence {
    var registrars: seq<ModuleId>
    var required: seq<ModuleId>
    var contributions: map<ModuleId, seq<Requirement>>
    var assembled: seq<ModuleId>
    var positive: seq<Check>
    var negative: seq<Check>
    var readiness: seq<Check>
    var outage: seq<Check>
    var shutdown: seq<Check>
    var synthetic: bool
    var classifying: bool

    constructor ()
      ensures registrars == required == [] && contributions == map[] && Untouched()
      ensures outage == [] && !synthetic && !classifying
    {
      registrars, required, assembled, contributions := [], [], [], map[];
      positive, negative, readiness, outage, shutdown := [], [], [], [], [];
      synthetic, classifying := false, false;
    }

    // Nothing has been learned about a running process yet.
    predicate Untouched()
      reads this
    {
      assembled == [] && positive == negative == readiness == shutdown == []
    }

    // What the build stage leaves behind, whichever way it went.
    predicate Shows(plan: Plan, w: World)
      reads this
    {
      && assembled == (if Assembles(plan, w) then registrars else [])
      && positive == (if Started(plan, w) then [RepresentativeWorkflow] else [])
      && negative == (if Started(plan, w) then [NegativeWorkflow] else [])
      && readiness == (if Started(plan, w) then [StartupReadiness] else [])
      && shutdown == (if Started(plan, w) then [BoundedShutdown] else [])
    }
  }

  // ----- From single entries to the table -----

  lemma Table3(before: seq<Entry>, plan: Plan, w: World, a: Check, b: Check, c: Check)
    ensures before + [EntryFor(plan, w, a)] + [EntryFor(plan, w, b)] + [EntryFor(plan, w, c)]
            == before + Table(plan, w, [a, b, c])
  {
  }

  lemma TableAppend(before: seq<Entry>, plan: Plan, w: World, a: seq<Check>, b: seq<Check>)
    ensures before + Table(plan, w, a) + Table(plan, w, b) == before + Table(plan, w, a + b)
  {
  }

  lemma SkippedTable(plan: Plan, w: World, names: seq<Check>)
    requires forall n :: n in names ==> Outcome(plan, w, n) == Skipped
    ensures SkipAll(names, plan) == Table(plan, w, names)
  {
  }

  method VerifyRender(plan: Plan, w: World, checks: Checks)
    modifies checks
    ensures checks.entries == old(checks.entries) + Table(plan, w, RENDER)
  {
    Table3(checks.entries, plan, w, RenderFresh, RenderRepeat, ByteIdentical);
    var rendered := checks.Record(RenderFresh, RenderFresh in w.succeeds);
    if !rendered {
      checks.RecordSkipped(RenderRepeat, true);
      checks.RecordSkipped(ByteIdentical, true);
      return;
    }
    var repeated := checks.Record(RenderRepeat, RenderRepeat in w.succeeds);
    if !repeated {
      checks.RecordSkipped(ByteIdentical, true);
      return;
    }
    var _ := checks.Record(ByteIdentical, ByteIdentical in w.succeeds);
  }

  method VerifyCatalog(plan: Plan, w: World, checks: Checks)
    modifies checks
    ensures checks.entries == old(checks.entries) + Table(plan, w, CATALOG)
  {
    Table3(checks.entries, plan, w, MetadataArtifacts, DoctorClean, DiffClean);
    var _ := checks.Record(MetadataArtifacts, MetadataArtifacts in w.succeeds);
    if w.doctorCatalog {
      var clean := checks.Record(DoctorClean, DoctorClean in w.succeeds);
      if clean {
        var _ := checks.Record(DiffClean, true);
      } else {
        checks.RecordSkipped(DiffClean, true);
      }
    } else {
      var _ := checks.Record(DoctorClean, false);
      checks.RecordSkipped(DiffClean, true);
    }
  }

  method VerifyComposition(plan: Plan, w: World, checks: Checks, evidence: Evidence)
    requires evidence.registrars == evidence.required == [] && evidence.contributions == map[]
    modifies checks, evidence`registrars, evidence`required, evidence`contributions
    ensures checks.entries == old(checks.entries) + Table(plan, w, COMPOSITION)
    ensures evidence.registrars == Registrars(plan, w) && evidence.required == Required(plan, w)
    ensures forall id :: id in evidence.contributions <==> id in evidence.required
    ensures forall id :: id in evidence.contributions ==>
              w.catalog.Catalog? && id in w.catalog.modules
              && evidence.contributions[id] == Requirements(id, w.catalog.modules[id]) != []
  {
    Table3(checks.entries, plan, w, CompositionManifest, ApplicationRequirements, ApplicationFixtureOrigin);
    if w.catalog.Unavailable? {
      var _ := checks.Record(CompositionManifest, false);
      checks.RecordSkipped(ApplicationRequirements, true);
      checks.RecordSkipped(ApplicationFixtureOrigin, true);
      return;
    }
    var _ := checks.Record(CompositionManifest, CompositionManifest in w.succeeds);
    InspectModules(plan.modules, w.catalog.modules, evidence);
    var _ := checks.Record(ApplicationRequirements, true);
    var _ := checks.Record(ApplicationFixtureOrigin, true);
  }

  method InspectModules(modules: seq<ModuleId>, catalog: map<ModuleId, Module>, evidence: Evidence)
    requires evidence.registrars == evidence.required == [] && evidence.contributions == map[]
    modifies evidence`registrars, evidence`required, evidence`contributions
    ensures evidence.registrars == RegistrarsOf(modules, catalog)
    ensures evidence.required == RequiredOf(modules, catalog)
    ensures forall id :: id in evidence.contributions <==> id in evidence.required
    ensures forall id :: id in evidence.contributions ==>
              id in catalog && evidence.contributions[id] == Requirements(id, catalog[id]) != []
  {
    for i := 0 to |modules|
      invariant evidence.registrars == RegistrarsOf(modules[..i], catalog)
      invariant evidence.required == RequiredOf(modules[..i], catalog)
      invariant forall id :: id in evidence.contributions <==> id in evidence.required
      invariant forall id :: id in evidence.contributions ==>
                  id in catalog && evidence.contributions[id] == Requirements(id, catalog[id]) != []
    {
      var id := modules[i];
      assert modules[..i + 1][..i] == modules[..i];
      if id !in catalog { continue; }
      if catalog[id].registrar {
        evidence.registrars := evidence.registrars + [id];
      }
      var requirements := catalog[id].requirements;
      if id == LlmEmbeddings {
        requirements := requirements + [MissingEmbeddingContract];
      }
      if requirements == [] { continue; }
      evidence.required := evidence.required + [id];
      evidence.contributions := evidence.contributions[id := requirements];
    }
    assert modules[..|modules|] == modules;
  }

  lemma SkippedRuntime(plan: Plan, w: World, names: seq<Check>)
    requires forall n :: n in names ==> n in RUNTIME_CHECKS
    requires !Built(w) || Required(plan, w) != []
             || (plan.services == [] && StartupReadiness !in w.succeeds && StartupReadiness !in names)
    ensures SkipAll(names, plan) == Table(plan, w, names)
  {
    forall n | n in names ensures Outcome(plan, w, n) == Skipped {
      RuntimeMember(n);
    }
    SkippedTable(plan, w, names);
  }

  lemma BlockedRuntime(plan: Plan, w: World, n: Check)
    requires n in RUNTIME_CHECKS && Built(w) && Required(plan, w) == [] && plan.services != []
    ensures EntryFor(plan, w, n) == Block(n)
  {
    RuntimeMember(n);
  }

  // ----- Web -----

  lemma SkipAppend(plan: Plan, a: seq<Check>, b: seq<Check>)
    ensures SkipAll(a + b, plan) == SkipAll(a, plan) + SkipAll(b, plan)
  {
  }

  lemma WebTails()
    ensures WEB_CHECKS[1..] == [WebFrozenInstall] + WEB_SKIPPED + [WebE2eSmoke]
    ensures WEB_CHECKS[2..] == WEB_SKIPPED + [WebE2eSmoke]
  {
  }

  lemma SkippedWeb(plan: Plan, w: World)
    requires !Installed(plan, w)
    ensures SkipAll(WEB_SKIPPED, plan) == Table(plan, w, WEB_SKIPPED)
  {
    SkippedTable(plan, w, WEB_SKIPPED);
  }

  lemma SkippedInstall(plan: Plan, w: World)
    requires !Installed(plan, w)
    ensures SkipAll(WEB_CHECKS[1..], plan)
            == [Skip(WebFrozenInstall, true)] + Table(plan, w, WEB_SKIPPED) + [Skip(WebE2eSmoke, plan.e2e)]
  {
    WebTails();
    SkipAppend(plan, [WebFrozenInstall] + WEB_SKIPPED, [WebE2eSmoke]);
    SkipAppend(plan, [WebFrozenInstall], WEB_SKIPPED);
    SkippedWeb(plan, w);
  }

  lemma WebWithoutWorkspace(before: seq<Entry>, plan: Plan, w: World)
    requires plan.web && WebWorkspace !in w.succeeds
    ensures before + [Checked(WebWorkspace, false)] + SkipAll(WEB_CHECKS[1..], plan)
            == before + Table(plan, w, WebOrder(plan, w)) + [Skip(WebE2eSmoke, plan.e2e)]
  {
    SkippedInstall(plan, w);
    TableAppend([], plan, w, [WebWorkspace, WebFrozenInstall], WEB_SKIPPED);
    Regrouped(before, Checked(WebWorkspace, false), Skip(WebFrozenInstall, true),
             Table(plan, w, WEB_SKIPPED), Skip(WebE2eSmoke, plan.e2e));
    WebStarts(plan, w);
  }

  // The first two entries of a web run.
  lemma WebStarts(plan: Plan, w: World)
    requires plan.web
    ensures Table(plan, w, [WebWorkspace, WebFrozenInstall]) ==
            if WebWorkspace !in w.succeeds then [Checked(WebWorkspace, false), Skip(WebFrozenInstall, true)]
            else [Checked(WebWorkspace, true), Checked(WebFrozenInstall, WebFrozenInstall in w.succeeds)]
  {
  }

  lemma Regrouped(before: seq<Entry>, a: Entry, b: Entry, middle: seq<Entry>, last: Entry)
    ensures before + [a] + ([b] + middle + [last]) == before + ([a, b] + middle) + [last]
    ensures before + [a] + [b] + (middle + [last]) == before + ([a, b] + middle) + [last]
  {
  }

  lemma WebWithoutInstall(before: seq<Entry>, plan: Plan, w: World)
    requires plan.web && WebWorkspace in w.succeeds && WebFrozenInstall !in w.succeeds
    ensures before + [Checked(WebWorkspace, true)] + [Checked(WebFrozenInstall, false)]
            + SkipAll(WEB_CHECKS[2..], plan)
            == before + Table(plan, w, WebOrder(plan, w)) + [Skip(WebE2eSmoke, plan.e2e)]
  {
    WebTails();
    SkipAppend(plan, WEB_SKIPPED, [WebE2eSmoke]);
    SkippedWeb(plan, w);
    TableAppend([], plan, w, [WebWorkspace, WebFrozenInstall], WEB_SKIPPED);
    Regrouped(before, Checked(WebWorkspace, true), Checked(WebFrozenInstall, false),
             Table(plan, w, WEB_SKIPPED), Skip(WebE2eSmoke, plan.e2e));
    WebStarts(plan, w);
  }

  method VerifyWeb(plan: Plan, w: World, checks: Checks)
    requires plan.web
    modifies checks
    ensures checks.entries
            == old(checks.entries) + Table(plan, w, WebOrder(plan, w))
               + if Repeated(plan, w) then [Skip(WebE2eSmoke, plan.e2e)] else []
  {
    ghost var before := checks.entries;
    var workspace := checks.Record(WebWorkspace, WebWorkspace in w.succeeds);
    if !workspace {
      checks.SkipChecks(WEB_CHECKS[1..], plan);
      WebWithoutWorkspace(before, plan, w);
      return;
    }
    var installed := checks.Record(WebFrozenInstall, WebFrozenInstall in w.succeeds);
    if !installed {
      checks.SkipChecks(WEB_CHECKS[2..], plan);
      WebWithoutInstall(before, plan, w);
      return;
    }
    VerifyInstalled(plan, w, checks);
    TableAppend(before, plan, w, [WebWorkspace, WebFrozenInstall], WEB);
    WebStarts(plan, w);
    assert before + [Checked(WebWorkspace, true)] + [Checked(WebFrozenInstall, true)]
        == before + [Checked(WebWorkspace, true), Checked(WebFrozenInstall, true)];
  }

  method VerifyInstalled(plan: Plan, w: World, checks: Checks)
    requires Installed(plan, w)
    modifies checks
    ensures checks.entries == old(checks.entries) + Table(plan, w, WEB)
  {
    ghost var before := checks.entries;
    var _ := checks.Record(WebContractsCheck, WebContractsCheck in w.succeeds);
    var scripts := WEB[1..];
    for i := 0 to |scripts|
      invariant checks.entries == before + Table(plan, w, WEB[..i + 1])
    {
      var _ := checks.Record(scripts[i], scripts[i] in w.succeeds);
      TableSnoc(before, plan, w, WEB[..i + 1], scripts[i]);
      assert WEB[..i + 2] == WEB[..i + 1] + [scripts[i]];
    }
    assert WEB[..|WEB|] == WEB;
  }

  lemma TableSnoc(before: seq<Entry>, plan: Plan, w: World, names: seq<Check>, n: Check)
    ensures before + Table(plan, w, names) + [EntryFor(plan, w, n)] == before + Table(plan, w, names + [n])
  {
  }

  // ----- Build and process -----

  method VerifyBuild(plan: Plan, w: World, checks: Checks, evidence: Evidence)
    requires evidence.required == Required(plan, w) && evidence.Untouched()
    requires !HasPassed(checks.entries, RegisteredRoutesTasksHealth)
    modifies checks, evidence`assembled, evidence`positive, evidence`negative, evidence`readiness,
             evidence`shutdown
    ensures checks.entries == old(checks.entries) + Table(plan, w, BUILD + RuntimeOrder(plan, w))
    ensures evidence.Shows(plan, w)
  {
    ghost var before := checks.entries;
    Table3(before, plan, w, CargoTest, ProfileInfo, MigrationPolicy);
    TableAppend(before, plan, w, BUILD, RuntimeOrder(plan, w));
    var built := checks.Record(CargoTest, CargoTest in w.succeeds);
    if !built {
      checks.RecordSkipped(ProfileInfo, true);
      checks.RecordSkipped(MigrationPolicy, true);
      checks.SkipChecks(RUNTIME_CHECKS, plan);
      SkippedRuntime(plan, w, RUNTIME_CHECKS);
      return;
    }
    var described := checks.Record(ProfileInfo, ProfileInfo in w.succeeds);
    if !described {
      checks.RecordSkipped(MigrationPolicy, true);
      checks.SkipChecks(RUNTIME_CHECKS, plan);
      SkippedRuntime(plan, w, RUNTIME_CHECKS);
      return;
    }
    var _ := checks.Record(MigrationPolicy, MigrationPolicy in w.succeeds);
    assert checks.entries == before + Table(plan, w, BUILD);
    NotPassed(before, plan, w, BUILD);
    VerifyRuntime(plan, w, checks, evidence);
  }

  lemma NotPassed(before: seq<Entry>, plan: Plan, w: World, names: seq<Check>)
    requires !HasPassed(before, RegisteredRoutesTasksHealth) && RegisteredRoutesTasksHealth !in names
    ensures !HasPassed(before + Table(plan, w, names), RegisteredRoutesTasksHealth)
  {
    var entries := before + Table(plan, w, names);
    forall i | 0 <= i < |entries|
      ensures !(entries[i].name == RegisteredRoutesTasksHealth && entries[i].status == Passed)
    {
      if i < |before| {
        assert entries[i] == before[i];
      } else {
        assert entries[i] == EntryFor(plan, w, names[i - |before|]);
      }
    }
  }

  method VerifyRuntime(plan: Plan, w: World, checks: Checks, evidence: Evidence)
    requires evidence.required == Required(plan, w) && evidence.Untouched() && Built(w)
    requires !HasPassed(checks.entries, RegisteredRoutesTasksHealth)
    modifies checks, evidence`assembled, evidence`positive, evidence`negative, evidence`readiness,
             evidence`shutdown
    ensures checks.entries == old(checks.entries) + Table(plan, w, RuntimeOrder(plan, w))
    ensures evidence.Shows(plan, w)
  {
    if evidence.required != [] {
      checks.SkipChecks(RUNTIME_CHECKS, plan);
      SkippedRuntime(plan, w, RUNTIME_CHECKS);
      return;
    }
    if plan.services != [] {
      checks.BlockChecks(RUNTIME_CHECKS);
      forall n | n in RUNTIME_CHECKS ensures EntryFor(plan, w, n) == Block(n) {
        BlockedRuntime(plan, w, n);
      }
      BlockedTable(plan, w, RUNTIME_CHECKS);
      return;
    }
    VerifyProcess(plan, w, checks, evidence);
  }

  lemma BlockedTable(plan: Plan, w: World, names: seq<Check>)
    requires forall n :: n in names ==> EntryFor(plan, w, n) == Block(n)
    ensures BlockAll(names) == Table(plan, w, names)
  {
  }

  method VerifyProcess(plan: Plan, w: World, checks: Checks, evidence: Evidence)
    requires Startable(plan, w) && evidence.Untouched()
    requires !HasPassed(checks.entries, RegisteredRoutesTasksHealth)
    modifies checks, evidence`assembled, evidence`positive, evidence`negative, evidence`readiness,
             evidence`shutdown
    ensures checks.entries == old(checks.entries) + Table(plan, w, RuntimeOrder(plan, w))
    ensures evidence.Shows(plan, w)
  {
    ghost var before := checks.entries;
    var ready := checks.Record(StartupReadiness, StartupReadiness in w.succeeds);
    TableSnoc(before, plan, w, [], StartupReadiness);
    if ready {
      NotPassed(before, plan, w, [StartupReadiness]);
      VerifyStarted(plan, w, checks, evidence);
      TableAppend(before, plan, w, [StartupReadiness], PROCESS);
    } else {
      checks.SkipChecks(RUNTIME_CHECKS[1..], plan);
      UnstartedTail();
      SkippedRuntime(plan, w, RUNTIME_CHECKS[1..]);
      TableAppend(before, plan, w, [StartupReadiness], RUNTIME_CHECKS[1..]);
    }
  }

  lemma UnstartedTail()
    ensures [StartupReadiness] + RUNTIME_CHECKS[1..] == RUNTIME_CHECKS
    ensures StartupReadiness !in RUNTIME_CHECKS[1..]
    ensures forall n :: n in RUNTIME_CHECKS[1..] ==> n in RUNTIME_CHECKS
  {
  }

  method VerifyWorkflows(plan: Plan, w: World, checks: Checks, evidence: Evidence)
    requires Started(plan, w)
    modifies checks, evidence`positive, evidence`negative, evidence`readiness
    ensures checks.entries == old(checks.entries)
                              + Table(plan, w, [RegisteredRoutesTasksHealth, RepresentativeWorkflow, NegativeWorkflow])
    ensures evidence.positive == old(evidence.positive) + [RepresentativeWorkflow]
    ensures evidence.negative == old(evidence.negative) + [NegativeWorkflow]
    ensures evidence.readiness == old(evidence.readiness) + [StartupReadiness]
  {
    ghost var before := checks.entries;
    var _ := checks.Record(RegisteredRoutesTasksHealth, RegisteredRoutesTasksHealth in w.succeeds);
    var _ := checks.Record(RepresentativeWorkflow, true);
    evidence.positive := evidence.positive + [RepresentativeWorkflow];
    var _ := checks.Record(NegativeWorkflow, true);
    evidence.negative := evidence.negative + [NegativeWorkflow];
    evidence.readiness := evidence.readiness + [StartupReadiness];
    Table3(before, plan, w, RegisteredRoutesTasksHealth, RepresentativeWorkflow, NegativeWorkflow);
  }

  method VerifyStarted(plan: Plan, w: World, checks: Checks, evidence: Evidence)
    requires Started(plan, w) && evidence.Untouched()
    requires !HasPassed(checks.entries, RegisteredRoutesTasksHealth)
    modifies checks, evidence`assembled, evidence`positive, evidence`negative, evidence`readiness,
             evidence`shutdown
    ensures checks.entries == old(checks.entries) + Table(plan, w, PROCESS)
    ensures evidence.Shows(plan, w)
  {
    ghost var before := checks.entries;
    VerifyWorkflows(plan, w, checks, evidence);
    ghost var half := checks.entries;
    var _ := checks.Record(BoundedShutdown, true);
    evidence.shutdown := evidence.shutdown + [BoundedShutdown];
    RecordOutage(plan, checks);
    var parity := checks.Record(RuntimeContractParity, RuntimeContractParity in w.succeeds);
    Table3(half, plan, w, BoundedShutdown, DependencyOutage, RuntimeContractParity);
    ProcessTable(before, plan, w);
    RegisteredPassed(before, plan, w);
    Assemble(plan, parity, checks, evidence);
  }

  lemma ProcessTable(before: seq<Entry>, plan: Plan, w: World)
    ensures before + Table(plan, w, [RegisteredRoutesTasksHealth, RepresentativeWorkflow, NegativeWorkflow])
            + Table(plan, w, [BoundedShutdown, DependencyOutage, RuntimeContractParity])
            == before + Table(plan, w, PROCESS)
  {
    TableAppend(before, plan, w, [RegisteredRoutesTasksHealth, RepresentativeWorkflow, NegativeWorkflow],
                [BoundedShutdown, DependencyOutage, RuntimeContractParity]);
    assert PROCESS == [RegisteredRoutesTasksHealth, RepresentativeWorkflow, NegativeWorkflow]
                      + [BoundedShutdown, DependencyOutage, RuntimeContractParity];
  }

  lemma RegisteredPassed(before: seq<Entry>, plan: Plan, w: World)
    requires !HasPassed(before, RegisteredRoutesTasksHealth) && Started(plan, w)
    ensures HasPassed(before + Table(plan, w, PROCESS), RegisteredRoutesTasksHealth)
            <==> RegisteredRoutesTasksHealth in w.succeeds
  {
    var entries := before + Table(plan, w, PROCESS);
    assert entries[|before|] == EntryFor(plan, w, RegisteredRoutesTasksHealth);
    if HasPassed(entries, RegisteredRoutesTasksHealth) {
      var i :| 0 <= i < |entries| && entries[i].name == RegisteredRoutesTasksHealth && entries[i].status == Passed;
      assert i >= |before| ==> entries[i] == EntryFor(plan, w, PROCESS[i - |before|]);
    }
  }

  method RecordOutage(plan: Plan, checks: Checks)
    modifies checks
    ensures checks.entries == old(checks.entries)
            + [if plan.services == [] then Checked(DependencyOutage, true) else Block(DependencyOutage)]
  {
    if plan.services == [] {
      var _ := checks.Record(DependencyOutage, true);
    } else {
      checks.RecordBlocked(DependencyOutage);
    }
  }

  method Assemble(plan: Plan, parity: bool, checks: Checks, evidence: Evidence)
    modifies evidence`assembled
    ensures evidence.assembled ==
            if parity && HasPassed(checks.entries, RegisteredRoutesTasksHealth)
               && (plan.services == [] || HasPassed(checks.entries, DependencyOutage))
            then evidence.registrars else old(evidence.assembled)
  {
    if parity && checks.CheckPassed(RegisteredRoutesTasksHealth)
       && (plan.services == [] || checks.CheckPassed(DependencyOutage))
    {
      evidence.assembled := evidence.registrars;
    }
  }

  method VerifyBrowser(plan: Plan, w: World, checks: Checks, evidence: Evidence)
    requires evidence.required == Required(plan, w)
    modifies checks
    ensures checks.entries
            == old(checks.entries) + Table(plan, w, if plan.web then [WebE2eSmoke] else [])
  {
    ghost var before := checks.entries;
    TableSnoc(before, plan, w, [], WebE2eSmoke);
    if plan.web {
      if plan.e2e && evidence.required != [] {
        checks.RecordBlocked(WebE2eSmoke);
      } else if plan.e2e {
        var _ := checks.Record(WebE2eSmoke, WebE2eSmoke in w.succeeds);
      } else {
        checks.RecordSkipped(WebE2eSmoke, false);
      }
    }
  }

  // ----- The whole run -----

  const ASSEMBLY_CHECKS := {
    CompositionManifest, MigrationPolicy, StartupReadiness, RegisteredRoutesTasksHealth,
    RepresentativeWorkflow, NegativeWorkflow, DependencyOutage, BoundedShutdown, RuntimeContractParity}

  predicate AssemblyPassed(entries: seq<Entry>) {
    forall n :: n in ASSEMBLY_CHECKS ==> HasPassed(entries, n)
  }

  function DeriveState(generated: bool, compiled: bool, plan: Plan, evidence: Evidence, entries: seq<Entry>)
    : State
    reads evidence
  {
    if && compiled
       && plan.modules != []
       && evidence.required == []
       && !evidence.synthetic
       && !evidence.classifying
       && evidence.registrars != []
       && evidence.assembled == evidence.registrars
       && evidence.positive != []
       && evidence.negative != []
       && evidence.readiness != []
       && evidence.shutdown != []
       && (plan.services == [] || evidence.outage != [])
       && AssemblyPassed(entries)
    then Assembled
    else if compiled then Compiled
    else if generated then Generated
    else Selected
  }

  lemma AssemblyMember(n: Check)
    requires n in ASSEMBLY_CHECKS
    ensures !OfWeb(n)
  {
  }

  ghost predicate AssemblyOutcomes(plan: Plan, w: World) {
    forall n :: n in ASSEMBLY_CHECKS ==> Outcome(plan, w, n) == Passed
  }

  lemma AssemblyPasses(plan: Plan, w: World)
    ensures AssemblyPassed(Recorded(plan, w)) <==> AssemblyOutcomes(plan, w)
  {
    forall n | n in ASSEMBLY_CHECKS
      ensures HasPassed(Recorded(plan, w), n) <==> Outcome(plan, w, n) == Passed
    {
      AssemblyMember(n);
      Passing(plan, w, n);
    }
  }

  lemma AssemblyExact(plan: Plan, w: World)
    requires Assembles(plan, w) && w.catalog.Catalog?
    ensures AssemblyOutcomes(plan, w) <==> CompositionManifest in w.succeeds && MigrationPolicy in w.succeeds
  {
    AssemblyAsks();
    forall n | n in ASSEMBLY_CHECKS
      ensures Outcome(plan, w, n) == Passed <==> (n == CompositionManifest || n == MigrationPolicy ==> n in w.succeeds)
    {
      AssemblyOutcome(plan, w, n);
    }
  }

  lemma AssemblyAsks()
    ensures CompositionManifest in ASSEMBLY_CHECKS && MigrationPolicy in ASSEMBLY_CHECKS
  {
  }

  lemma AssemblyOutcome(plan: Plan, w: World, n: Check)
    requires Assembles(plan, w) && w.catalog.Catalog? && n in ASSEMBLY_CHECKS
    ensures Outcome(plan, w, n) == Passed <==> (n == CompositionManifest || n == MigrationPolicy ==> n in w.succeeds)
  {
  }

  // What the evidence and the ledger say together is what the world answered.
  lemma DeriveExact(plan: Plan, w: World, evidence: Evidence)
    requires evidence.required == Required(plan, w) && evidence.registrars == Registrars(plan, w)
    requires evidence.Shows(plan, w) && !evidence.synthetic && !evidence.classifying
    ensures var generated := RenderFresh in w.succeeds;
            DeriveState(generated, generated && CargoTest in w.succeeds, plan, evidence, Recorded(plan, w))
            == StateOf(plan, w)
  {
    AssemblyPasses(plan, w);
    if Assembles(plan, w) && w.catalog.Catalog? {
      AssemblyExact(plan, w);
    }
  }

  method VerifyFrontBase(plan: Plan, w: World, checks: Checks, evidence: Evidence)
    requires checks.entries == []
    requires evidence.registrars == evidence.required == [] && evidence.contributions == map[]
    modifies checks, evidence`registrars, evidence`required, evidence`contributions
    ensures checks.entries == Table(plan, w, RENDER) + Table(plan, w, CATALOG) + Table(plan, w, COMPOSITION)
    ensures evidence.registrars == Registrars(plan, w) && evidence.required == Required(plan, w)
  {
    VerifyRender(plan, w, checks);
    VerifyCatalog(plan, w, checks);
    VerifyComposition(plan, w, checks, evidence);
  }

  method VerifyFront(plan: Plan, w: World, checks: Checks, evidence: Evidence)
    requires checks.entries == []
    requires evidence.registrars == evidence.required == [] && evidence.contributions == map[]
    modifies checks, evidence`registrars, evidence`required, evidence`contributions
    ensures checks.entries == Compose(plan, w, Front(plan, w), Repeated(plan, w), [])
    ensures evidence.registrars == Registrars(plan, w) && evidence.required == Required(plan, w)
  {
    FrontTable(plan, w);
    VerifyFrontBase(plan, w, checks, evidence);
    if plan.web {
      VerifyWeb(plan, w, checks);
    }
  }

  method VerifyBack(plan: Plan, w: World, checks: Checks, evidence: Evidence)
    returns (generated: bool, compiled: bool)
    requires checks.entries == Compose(plan, w, Front(plan, w), Repeated(plan, w), [])
    requires evidence.required == Required(plan, w) && evidence.Untouched()
    modifies checks, evidence`assembled, evidence`positive, evidence`negative, evidence`readiness,
             evidence`shutdown
    ensures checks.entries == Recorded(plan, w) && evidence.Shows(plan, w)
    ensures generated == (RenderFresh in w.succeeds)
    ensures compiled == (generated && CargoTest in w.succeeds)
  {
    FrontHasNoRuntime(plan, w);
    VerifyBuild(plan, w, checks, evidence);
    VerifyBrowser(plan, w, checks, evidence);
    BeforeCleanup(plan, w);
    generated := checks.CheckPassed(RenderFresh);
    compiled := generated && checks.CheckPassed(CargoTest);
    var _ := checks.Record(BuildCacheCleanup, BuildCacheCleanup in w.succeeds);
    AfterCleanup(plan, w);
  }

  method VerifyProfile(plan: Plan, w: World) returns (success: bool, state: State, entries: seq<Entry>)
    ensures entries == Recorded(plan, w)
    ensures success == Successful(plan, entries)
    ensures state == StateOf(plan, w) && Classified(entries, Registers(plan, w), state)
    ensures Lawful(plan, w, n => StatusIn(entries, n)) && (plan.web ==> Smoke(plan, w, entries))
  {
    var checks := new Checks();
    var evidence := new Evidence();
    VerifyFront(plan, w, checks, evidence);
    var generated, compiled := VerifyBack(plan, w, checks, evidence);
    NothingMissing(plan, w);
    checks.FillMissing(Expected(plan), plan);
    entries := checks.entries;
    success := |entries| == |Expected(plan)| && Green(entries);
    state := DeriveState(generated, compiled, plan, evidence, entries);
    DeriveExact(plan, w, evidence);
    StateExactly(plan, w);
    RunLawful(plan, w);
    if plan.web { SmokeExactly(plan, w); }
  }

  function BackBeforeCleanup(plan: Plan, w: World): seq<Check> {
    BUILD + RuntimeOrder(plan, w) + if plan.web then [WebE2eSmoke] else []
  }

  lemma FrontTable(plan: Plan, w: World)
    ensures var again := if Repeated(plan, w) then [Skip(WebE2eSmoke, plan.e2e)] else [];
            Table(plan, w, RENDER) + Table(plan, w, CATALOG) + Table(plan, w, COMPOSITION)
            + Table(plan, w, WebOrder(plan, w)) + again
            == Compose(plan, w, Front(plan, w), Repeated(plan, w), [])
  {
    TableAppend([], plan, w, RENDER, CATALOG);
    TableAppend([], plan, w, RENDER + CATALOG, COMPOSITION);
    TableAppend([], plan, w, RENDER + CATALOG + COMPOSITION, WebOrder(plan, w));
    assert Table(plan, w, []) == [];
  }

  lemma FrontHasNoRuntime(plan: Plan, w: World)
    ensures !HasPassed(Compose(plan, w, Front(plan, w), Repeated(plan, w), []), RegisteredRoutesTasksHealth)
  {
    ComposedPassed(plan, w, Front(plan, w), Repeated(plan, w), [], RegisteredRoutesTasksHealth);
    assert RegisteredRoutesTasksHealth !in Front(plan, w);
  }

  lemma BeforeCleanup(plan: Plan, w: World)
    ensures var front, again := Front(plan, w), Repeated(plan, w);
            var entries := Compose(plan, w, front, again, [])
                           + Table(plan, w, BUILD + RuntimeOrder(plan, w))
                           + Table(plan, w, if plan.web then [WebE2eSmoke] else []);
            entries == Compose(plan, w, front, again, BackBeforeCleanup(plan, w))
            && (HasPassed(entries, RenderFresh) <==> RenderFresh in w.succeeds)
            && (HasPassed(entries, CargoTest) <==> CargoTest in w.succeeds)
  {
    var front, again, back := Front(plan, w), Repeated(plan, w), BackBeforeCleanup(plan, w);
    TableAppend(Compose(plan, w, front, again, []), plan, w, BUILD + RuntimeOrder(plan, w),
                if plan.web then [WebE2eSmoke] else []);
    ComposeMore(plan, w, front, again, back);
    ComposedPassed(plan, w, front, again, back, RenderFresh);
    ComposedPassed(plan, w, front, again, back, CargoTest);
    assert front[0] == RenderFresh && back[0] == CargoTest;
  }

  lemma ComposeMore(plan: Plan, w: World, front: seq<Check>, again: bool, back: seq<Check>)
    ensures Compose(plan, w, front, again, []) + Table(plan, w, back) == Compose(plan, w, front, again, back)
  {
    assert Table(plan, w, []) == [];
  }

  lemma AfterCleanup(plan: Plan, w: World)
    ensures Compose(plan, w, Front(plan, w), Repeated(plan, w), BackBeforeCleanup(plan, w))
            + [EntryFor(plan, w, BuildCacheCleanup)] == Recorded(plan, w)
  {
    ComposeSnoc(plan, w, Front(plan, w), Repeated(plan, w), BackBeforeCleanup(plan, w), BuildCacheCleanup);
  }

  // By the time the missing names are filled in, none is missing.
  lemma NothingMissing(plan: Plan, w: World)
    ensures forall n :: n in Expected(plan) ==> n in Names(Recorded(plan, w))
  {
    RecordedNames(plan, w);
    MembersOfSum(Names(Recorded(plan, w)), Expected(plan),
                 if Repeated(plan, w) then multiset{WebE2eSmoke} else multiset{});
  }

  lemma ComposeSnoc(plan: Plan, w: World, front: seq<Check>, again: bool, back: seq<Check>, n: Check)
    ensures Compose(plan, w, front, again, back) + [EntryFor(plan, w, n)]
            == Compose(plan, w, front, again, back + [n])
  {
    TableSnoc([], plan, w, back, n);
  }

  lemma MembersOfSum(names: seq<Check>, expected: seq<Check>, more: multiset<Check>)
    requires multiset(names) == multiset(expected) + more
    ensures forall n :: n in expected ==> n in names
  {
    forall n | n in expected ensures n in names {
      assert n in multiset(expected);
      assert n in multiset(names);
    }
  }
}
