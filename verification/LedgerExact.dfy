/**
 What the ledger of a run shows: which check kept which other from being tried, and
 which state the profile is in, both said on the entries.
 */
module LedgerExact {
  import opened Ledger

  predicate HasStatus(entries: seq<Entry>, n: Check, s: Status) {
    exists i :: 0 <= i < |entries| && entries[i].name == n && entries[i].status == s
  }

  // ----- The modules of the plan -----

  // A module of the plan that the catalog knows and that needs something of the application.
  ghost predicate Awaits(plan: Plan, w: World) {
    && w.catalog.Catalog?
    && exists m :: m in plan.modules && m in w.catalog.modules
                   && (m == LlmEmbeddings || w.catalog.modules[m].requirements != [])
  }

  // A module of the plan that registers something.
  ghost predicate Registers(plan: Plan, w: World) {
    w.catalog.Catalog? && exists m :: m in plan.modules && m in w.catalog.modules && w.catalog.modules[m].registrar
  }

  lemma {:induction false} RequiredMembers(modules: seq<ModuleId>, c: map<ModuleId, Module>)
    ensures forall m :: m in RequiredOf(modules, c) <==>
                        m in modules && m in c && (m == LlmEmbeddings || c[m].requirements != [])
  {
    if modules != [] {
      RequiredMembers(modules[..|modules| - 1], c);
      assert modules == modules[..|modules| - 1] + [modules[|modules| - 1]];
    }
  }

  lemma {:induction false} RegistrarMembers(modules: seq<ModuleId>, c: map<ModuleId, Module>)
    ensures forall m :: m in RegistrarsOf(modules, c) <==> m in modules && m in c && c[m].registrar
  {
    if modules != [] {
      RegistrarMembers(modules[..|modules| - 1], c);
      assert modules == modules[..|modules| - 1] + [modules[|modules| - 1]];
    }
  }

  lemma ModulesExactly(plan: Plan, w: World)
    ensures Required(plan, w) != [] <==> Awaits(plan, w)
    ensures Registrars(plan, w) != [] <==> Registers(plan, w)
  {
    if w.catalog.Catalog? {
      RequiredMembers(plan.modules, w.catalog.modules);
      RegistrarMembers(plan.modules, w.catalog.modules);
      var required, registrars := Required(plan, w), Registrars(plan, w);
      assert required != [] ==> required[0] in required;
      assert registrars != [] ==> registrars[0] in registrars;
    }
  }

  // ----- One status for each check -----

  lemma StatusExactly(plan: Plan, w: World, n: Check, s: Status)
    requires n != WebE2eSmoke && (OfWeb(n) ==> plan.web)
    ensures HasStatus(Recorded(plan, w), n, s) <==> Outcome(plan, w, n) == s
  {
    var front, again, back := Front(plan, w), Repeated(plan, w), Back(plan, w);
    OrderCovers(plan, w);
    ExpectedMember(plan, n);
    ComposedHolds(plan, w, front, again, back, n);
    ComposedStatus(plan, w, front, again, back, n, s);
  }

  lemma ComposedStatus(plan: Plan, w: World, front: seq<Check>, again: bool, back: seq<Check>, n: Check, s: Status)
    requires n != WebE2eSmoke && EntryFor(plan, w, n) in Compose(plan, w, front, again, back)
    ensures HasStatus(Compose(plan, w, front, again, back), n, s) <==> Outcome(plan, w, n) == s
  {
    var r := Compose(plan, w, front, again, back);
    if HasStatus(r, n, s) {
      var i :| 0 <= i < |r| && r[i].name == n && r[i].status == s;
      ComposedEntries(plan, w, front, again, back, r[i]);
    }
    var i :| 0 <= i < |r| && r[i] == EntryFor(plan, w, n);
    assert r[i].name == n && r[i].status == Outcome(plan, w, n);
  }

  // ----- What stops what -----

  // The status that a ledger shows for a check.
  function StatusIn(entries: seq<Entry>, n: Check): Status {
    if HasStatus(entries, n, Passed) then Passed
    else if HasStatus(entries, n, Failed) then Failed
    else if HasStatus(entries, n, Skipped) then Skipped
    else Blocked
  }

  type Statuses = Check -> Status

  predicate Tried(s: Status) {
    s == Passed || s == Failed
  }

  // Skipped exactly when the check before it did not pass, and never blocked.
  predicate After(st: Statuses, before: Check, n: Check) {
    (st(n) == Skipped <==> st(before) != Passed) && st(n) != Blocked
  }

  predicate AlwaysTried(st: Statuses) {
    && Tried(st(RenderFresh)) && Tried(st(MetadataArtifacts)) && Tried(st(DoctorClean)) && Tried(st(CompositionManifest))
    && Tried(st(CargoTest)) && Tried(st(BuildCacheCleanup))
  }

  predicate Following(st: Statuses) {
    && After(st, RenderFresh, RenderRepeat) && After(st, RenderRepeat, ByteIdentical) && After(st, DoctorClean, DiffClean)
    && After(st, CargoTest, ProfileInfo) && After(st, ProfileInfo, MigrationPolicy)
  }

  predicate OfProcess(n: Check) {
    || n.RegisteredRoutesTasksHealth? || n.RepresentativeWorkflow? || n.NegativeWorkflow? || n.DependencyOutage?
    || n.BoundedShutdown? || n.RuntimeContractParity?
  }

  // The running process: not started without a description or while a module awaits the
  // application, blocked by external services, and after a failed start not looked at.
  ghost predicate Process(st: Statuses, awaits: bool, services: bool) {
    && (st(StartupReadiness) == Skipped <==> st(ProfileInfo) != Passed || awaits)
    && (st(StartupReadiness) == Blocked <==> st(ProfileInfo) == Passed && !awaits && services)
    && forall n :: OfProcess(n) ==>
         && (st(n) == Skipped <==> st(StartupReadiness) == Skipped || st(StartupReadiness) == Failed)
         && (st(n) == Blocked <==> st(StartupReadiness) == Blocked)
  }

  predicate OfInstall(n: Check) {
    n.WebContractsCheck? || n.WebTypecheckTs6? || n.WebTypecheckTs7? || n.WebTest? || n.WebBuild?
  }

  ghost predicate Web(st: Statuses) {
    && Tried(st(WebWorkspace)) && After(st, WebWorkspace, WebFrozenInstall)
    && forall n :: OfInstall(n) ==> After(st, WebFrozenInstall, n)
  }

  // The checks that a command or a validation answers, once they are tried.
  predicate Asked(n: Check) {
    || n.RenderFresh? || n.RenderRepeat? || n.ByteIdentical? || n.MetadataArtifacts? || n.CargoTest? || n.ProfileInfo?
    || n.MigrationPolicy? || n.StartupReadiness? || n.RegisteredRoutesTasksHealth? || n.RuntimeContractParity?
    || n.BuildCacheCleanup?
  }

  // The checks that pass when they are tried.
  predicate Granted(n: Check) {
    || n.DiffClean? || n.ApplicationRequirements? || n.ApplicationFixtureOrigin? || n.RepresentativeWorkflow?
    || n.NegativeWorkflow? || n.DependencyOutage? || n.BoundedShutdown?
  }

  ghost predicate Answered(w: World, st: Statuses) {
    && (forall n :: Asked(n) && Tried(st(n)) ==> (st(n) == Passed <==> n in w.succeeds))
    && (st(DoctorClean) == Passed <==> w.doctorCatalog && DoctorClean in w.succeeds)
    && (st(CompositionManifest) == Passed <==> w.catalog.Catalog? && CompositionManifest in w.succeeds)
    && (forall n :: Granted(n) && Tried(st(n)) ==> st(n) == Passed)
    && (Tried(st(ApplicationRequirements)) <==> w.catalog.Catalog?)
    && (Tried(st(ApplicationFixtureOrigin)) <==> w.catalog.Catalog?)
    && st(ApplicationRequirements) != Blocked && st(ApplicationFixtureOrigin) != Blocked
  }

  ghost predicate WebAnswered(w: World, st: Statuses) {
    forall n :: OfWeb(n) && n != WebE2eSmoke && Tried(st(n)) ==> (st(n) == Passed <==> n in w.succeeds)
  }

  ghost predicate Lawful(plan: Plan, w: World, st: Statuses) {
    && AlwaysTried(st) && Following(st) && Process(st, Awaits(plan, w), plan.services != []) && Answered(w, st)
    && (plan.web ==> Web(st) && WebAnswered(w, st))
  }

  ghost predicate ShowsOutcomes(plan: Plan, w: World, st: Statuses) {
    forall n :: n != WebE2eSmoke && (OfWeb(n) ==> plan.web) ==> st(n) == Outcome(plan, w, n)
  }

  lemma LawfulFront(plan: Plan, w: World, st: Statuses)
    requires ShowsOutcomes(plan, w, st)
    ensures AlwaysTried(st) && Following(st)
  {
    TriedOutcomes(plan, w);
    FollowingOutcomes(plan, w);
  }

  lemma TriedOutcomes(plan: Plan, w: World)
    ensures Tried(Outcome(plan, w, RenderFresh)) && Tried(Outcome(plan, w, MetadataArtifacts))
    ensures Tried(Outcome(plan, w, DoctorClean)) && Tried(Outcome(plan, w, CompositionManifest))
    ensures Tried(Outcome(plan, w, CargoTest)) && Tried(Outcome(plan, w, BuildCacheCleanup))
  {
  }

  lemma FollowingOutcomes(plan: Plan, w: World)
    ensures Following(n => Outcome(plan, w, n))
  {
  }

  lemma LawfulProcess(plan: Plan, w: World, st: Statuses)
    requires ShowsOutcomes(plan, w, st)
    ensures Process(st, Required(plan, w) != [], plan.services != [])
  {
  }

  lemma LawfulWeb(plan: Plan, w: World, st: Statuses)
    requires ShowsOutcomes(plan, w, st) && plan.web
    ensures Web(st) && WebAnswered(w, st)
  {
    forall n | OfInstall(n) ensures After(st, WebFrozenInstall, n) { WebOutcome(plan, w, n); }
    forall n | OfWeb(n) && n != WebE2eSmoke && Tried(st(n)) ensures st(n) == Passed <==> n in w.succeeds {
      WebOutcome(plan, w, n);
    }
  }

  lemma WebOutcome(plan: Plan, w: World, n: Check)
    requires OfWeb(n) && n != WebE2eSmoke
    ensures Tried(Outcome(plan, w, n)) ==> (Outcome(plan, w, n) == Passed <==> n in w.succeeds)
    ensures Outcome(plan, w, n) != Blocked
    ensures OfInstall(n) ==> (Outcome(plan, w, n) == Skipped <==> Outcome(plan, w, WebFrozenInstall) != Passed)
  {
  }

  lemma LawfulAnswers(plan: Plan, w: World, st: Statuses)
    requires ShowsOutcomes(plan, w, st)
    ensures Answered(w, st)
  {
    forall n | Asked(n) && Tried(st(n)) ensures st(n) == Passed <==> n in w.succeeds { AskedOutcome(plan, w, n); }
    forall n | Granted(n) && Tried(st(n)) ensures st(n) == Passed { GrantedOutcome(plan, w, n); }
    CatalogOutcomes(plan, w);
  }

  lemma AskedOutcome(plan: Plan, w: World, n: Check)
    requires Asked(n) && Tried(Outcome(plan, w, n))
    ensures !OfWeb(n) && (Outcome(plan, w, n) == Passed <==> n in w.succeeds)
  {
  }

  lemma GrantedOutcome(plan: Plan, w: World, n: Check)
    requires Granted(n) && Tried(Outcome(plan, w, n))
    ensures !OfWeb(n) && Outcome(plan, w, n) == Passed
  {
  }

  lemma CatalogOutcomes(plan: Plan, w: World)
    ensures Outcome(plan, w, DoctorClean) == Passed <==> w.doctorCatalog && DoctorClean in w.succeeds
    ensures Outcome(plan, w, CompositionManifest) == Passed <==> w.catalog.Catalog? && CompositionManifest in w.succeeds
    ensures Outcome(plan, w, ApplicationRequirements) == if w.catalog.Catalog? then Passed else Skipped
    ensures Outcome(plan, w, ApplicationFixtureOrigin) == if w.catalog.Catalog? then Passed else Skipped
  {
  }

  // Every run: what was tried, what was skipped, what was blocked, and what passed.
  lemma RunLawful(plan: Plan, w: World)
    ensures Lawful(plan, w, n => StatusIn(Recorded(plan, w), n))
  {
    var st: Statuses := n => StatusIn(Recorded(plan, w), n);
    forall n | n != WebE2eSmoke && (OfWeb(n) ==> plan.web) ensures st(n) == Outcome(plan, w, n) {
      forall s ensures HasStatus(Recorded(plan, w), n, s) <==> Outcome(plan, w, n) == s { StatusExactly(plan, w, n, s); }
    }
    ModulesExactly(plan, w);
    LawfulFront(plan, w, st);
    LawfulProcess(plan, w, st);
    LawfulAnswers(plan, w, st);
    if plan.web { LawfulWeb(plan, w, st); }
  }

  // ----- The browser smoke test -----

  // Once or twice in the ledger: blocked while a module awaits the application, skipped where it
  // is not asked for or the install failed, and otherwise as the browser answers.
  ghost predicate Smoke(plan: Plan, w: World, entries: seq<Entry>) {
    && (HasStatus(entries, WebE2eSmoke, Blocked) <==> plan.e2e && Awaits(plan, w))
    && (HasStatus(entries, WebE2eSmoke, Passed) <==> plan.e2e && !Awaits(plan, w) && WebE2eSmoke in w.succeeds)
    && (HasStatus(entries, WebE2eSmoke, Failed) <==> plan.e2e && !Awaits(plan, w) && WebE2eSmoke !in w.succeeds)
    && (HasStatus(entries, WebE2eSmoke, Skipped) <==> !plan.e2e || !HasStatus(entries, WebFrozenInstall, Passed))
  }

  lemma SmokeExactly(plan: Plan, w: World)
    requires plan.web
    ensures Smoke(plan, w, Recorded(plan, w))
  {
    StatusExactly(plan, w, WebFrozenInstall, Passed);
    forall s ensures HasStatus(Recorded(plan, w), WebE2eSmoke, s) <==>
                     Outcome(plan, w, WebE2eSmoke) == s || (s == Skipped && Repeated(plan, w))
    {
      SmokeStatus(plan, w, s);
    }
    SmokeShown(plan, w, Recorded(plan, w));
  }

  lemma SmokeShown(plan: Plan, w: World, entries: seq<Entry>)
    requires plan.web
    requires HasStatus(entries, WebFrozenInstall, Passed) <==> Outcome(plan, w, WebFrozenInstall) == Passed
    requires forall s :: HasStatus(entries, WebE2eSmoke, s) <==>
                         Outcome(plan, w, WebE2eSmoke) == s || (s == Skipped && Repeated(plan, w))
    ensures Smoke(plan, w, entries)
  {
    ModulesExactly(plan, w);
  }

  lemma SmokeStatus(plan: Plan, w: World, s: Status)
    requires plan.web
    ensures HasStatus(Recorded(plan, w), WebE2eSmoke, s) <==>
            Outcome(plan, w, WebE2eSmoke) == s || (s == Skipped && Repeated(plan, w))
  {
    OrderCovers(plan, w);
    ExpectedMember(plan, WebE2eSmoke);
    ComposedHolds(plan, w, Front(plan, w), Repeated(plan, w), Back(plan, w), WebE2eSmoke);
    ComposedSmoke(plan, w, Front(plan, w), Repeated(plan, w), Back(plan, w), s);
  }

  lemma ComposedSmoke(plan: Plan, w: World, front: seq<Check>, again: bool, back: seq<Check>, s: Status)
    requires EntryFor(plan, w, WebE2eSmoke) in Compose(plan, w, front, again, back)
    ensures HasStatus(Compose(plan, w, front, again, back), WebE2eSmoke, s) <==>
            Outcome(plan, w, WebE2eSmoke) == s || (s == Skipped && again)
  {
    var r := Compose(plan, w, front, again, back);
    if HasStatus(r, WebE2eSmoke, s) {
      var i :| 0 <= i < |r| && r[i].name == WebE2eSmoke && r[i].status == s;
      ComposedEntries(plan, w, front, again, back, r[i]);
    }
    var i :| 0 <= i < |r| && r[i] == EntryFor(plan, w, WebE2eSmoke);
    assert r[i].name == WebE2eSmoke && r[i].status == Outcome(plan, w, WebE2eSmoke);
    if again {
      assert r[|front|] == Skip(WebE2eSmoke, plan.e2e);
      assert r[|front|].name == WebE2eSmoke && r[|front|].status == Skipped;
    }
  }

  // ----- The other fields of an entry -----

  // Everything is required, but for the smoke test where it is not asked for; executed is what
  // was tried, and only a pass is a success.
  ghost predicate Shaped(plan: Plan, e: Entry) {
    && e.required == (e.name != WebE2eSmoke || plan.e2e) && e.executed == Tried(e.status)
    && e.success == (e.status == Passed)
  }

  lemma EntriesShaped(plan: Plan, w: World, e: Entry)
    requires e in Recorded(plan, w)
    ensures Shaped(plan, e)
  {
    ComposedEntries(plan, w, Front(plan, w), Repeated(plan, w), Back(plan, w), e);
  }

  // ----- The state -----

  // What has to pass for an assembled profile, besides rendering and building.
  predicate Assembling(n: Check) {
    n.CompositionManifest? || n.MigrationPolicy? || n.StartupReadiness? || OfProcess(n)
  }

  ghost predicate AllAssembling(entries: seq<Entry>) {
    forall n :: Assembling(n) ==> HasPassed(entries, n)
  }

  // The state that the entries of a ledger show, for a plan with or without a module that
  // registers something.
  ghost predicate Classified(entries: seq<Entry>, registers: bool, state: State) {
    match state
    case Selected => !HasPassed(entries, RenderFresh)
    case Generated => HasPassed(entries, RenderFresh) && !HasPassed(entries, CargoTest)
    case Compiled => HasPassed(entries, RenderFresh) && HasPassed(entries, CargoTest) && !(registers && AllAssembling(entries))
    case Assembled => HasPassed(entries, RenderFresh) && HasPassed(entries, CargoTest) && registers && AllAssembling(entries)
  }

  lemma AssemblingPasses(plan: Plan, w: World)
    requires CargoTest in w.succeeds && w.catalog.Catalog?
    ensures (forall n :: Assembling(n) ==> Outcome(plan, w, n) == Passed) <==>
            Assembles(plan, w) && CompositionManifest in w.succeeds && MigrationPolicy in w.succeeds
  {
    if forall n :: Assembling(n) ==> Outcome(plan, w, n) == Passed {
      assert Assembling(CompositionManifest) && Assembling(MigrationPolicy) && Assembling(RuntimeContractParity)
             && Assembling(RegisteredRoutesTasksHealth) && Assembling(StartupReadiness);
    }
  }

  lemma AssemblingExactly(plan: Plan, w: World)
    ensures AllAssembling(Recorded(plan, w)) <==> forall n :: Assembling(n) ==> Outcome(plan, w, n) == Passed
  {
    forall n | Assembling(n) ensures HasPassed(Recorded(plan, w), n) <==> Outcome(plan, w, n) == Passed {
      Passing(plan, w, n);
    }
  }

  // The state of every run is the one its ledger shows.
  lemma StateExactly(plan: Plan, w: World)
    ensures Classified(Recorded(plan, w), Registers(plan, w), StateOf(plan, w))
  {
    ModulesExactly(plan, w);
    Passing(plan, w, RenderFresh);
    Passing(plan, w, CargoTest);
    AssemblingExactly(plan, w);
    if CargoTest in w.succeeds && w.catalog.Catalog? { AssemblingPasses(plan, w); }
  }
}
