/**
 The evidence ledger of one generated profile: every check it records, whatever
 the commands it runs answer, and the classification drawn from it.
 */
module Ledger {
  datatype Check =
    | RenderFresh
    | RenderRepeat
    | ByteIdentical
    | MetadataArtifacts
    | DoctorClean
    | DiffClean
    | CargoTest
    | BuildCacheCleanup
    | ProfileInfo
    | CompositionManifest
    | MigrationPolicy
    | ApplicationRequirements
    | ApplicationFixtureOrigin
    | StartupReadiness
    | RegisteredRoutesTasksHealth
    | RepresentativeWorkflow
    | NegativeWorkflow
    | DependencyOutage
    | BoundedShutdown
    | RuntimeContractParity
    | WebWorkspace
    | WebFrozenInstall
    | WebContractsCheck
    | WebTypecheckTs6
    | WebTypecheckTs7
    | WebTest
    | WebBuild
    | WebE2eSmoke

  const BASE_CHECKS := [
    RenderFresh, RenderRepeat, ByteIdentical, MetadataArtifacts, DoctorClean, DiffClean, CargoTest,
    BuildCacheCleanup, ProfileInfo, CompositionManifest, MigrationPolicy, ApplicationRequirements,
    ApplicationFixtureOrigin, StartupReadiness, RegisteredRoutesTasksHealth, RepresentativeWorkflow,
    NegativeWorkflow, DependencyOutage, BoundedShutdown, RuntimeContractParity]

  const WEB_CHECKS := [
    WebWorkspace, WebFrozenInstall, WebContractsCheck, WebTypecheckTs6, WebTypecheckTs7, WebTest,
    WebBuild, WebE2eSmoke]

  const RUNTIME_CHECKS := [
    StartupReadiness, RegisteredRoutesTasksHealth, RepresentativeWorkflow, NegativeWorkflow,
    DependencyOutage, BoundedShutdown, RuntimeContractParity]

  // The one module the run singles out by id, and every other.
  datatype ModuleId = LlmEmbeddings | Other(id: string)

  // What a module needs from the application: a requirement of its catalog entry,
  // or the embedding contract that has no authoritative definition yet.
  datatype Requirement = Declared(name: string) | MissingEmbeddingContract

  datatype Status = Passed | Failed | Skipped | Blocked

  datatype Entry = Entry(name: Check, required: bool, executed: bool, status: Status, success: bool)

  // What the module catalog says of one module.
  datatype Module = Module(registrar: bool, requirements: seq<Requirement>)

  datatype Catalog = Unavailable | Catalog(modules: map<ModuleId, Module>)

  // `services` are the profile's runtime dependencies.
  datatype Plan = Plan(modules: seq<ModuleId>, services: seq<string>, web: bool, e2e: bool)

  // What the outside world answers in one run: the checks whose command or
  // validation would succeed if it were tried, whether the catalog loads for the
  // doctor, and what it holds when the composition is inspected.
  datatype World = World(succeeds: set<Check>, doctorCatalog: bool, catalog: Catalog)

  datatype State = Selected | Generated | Compiled | Assembled

  function Checked(name: Check, ok: bool): Entry {
    Entry(name, true, true, if ok then Passed else Failed, ok)
  }

  function Skip(name: Check, required: bool): Entry {
    Entry(name, required, false, Skipped, false)
  }

  function Block(name: Check): Entry {
    Entry(name, true, false, Blocked, false)
  }

  // ----- What the composition says about the modules -----

  function Requirements(id: ModuleId, m: Module): seq<Requirement> {
    m.requirements + if id == LlmEmbeddings then [MissingEmbeddingContract] else []
  }

  function RegistrarsOf(modules: seq<ModuleId>, c: map<ModuleId, Module>): seq<ModuleId> {
    if modules == [] then []
    else
      var last := modules[|modules| - 1];
      RegistrarsOf(modules[..|modules| - 1], c)
      + if last in c && c[last].registrar then [last] else []
  }

  function RequiredOf(modules: seq<ModuleId>, c: map<ModuleId, Module>): seq<ModuleId> {
    if modules == [] then []
    else
      var last := modules[|modules| - 1];
      RequiredOf(modules[..|modules| - 1], c)
      + if last in c && Requirements(last, c[last]) != [] then [last] else []
  }

  function Registrars(plan: Plan, w: World): seq<ModuleId> {
    if w.catalog.Unavailable? then [] else RegistrarsOf(plan.modules, w.catalog.modules)
  }

  function Required(plan: Plan, w: World): seq<ModuleId> {
    if w.catalog.Unavailable? then [] else RequiredOf(plan.modules, w.catalog.modules)
  }

  // The generated process was built, described itself and may be started.
  predicate Startable(plan: Plan, w: World) {
    CargoTest in w.succeeds && ProfileInfo in w.succeeds && Required(plan, w) == [] && plan.services == []
  }

  predicate Started(plan: Plan, w: World) {
    Startable(plan, w) && StartupReadiness in w.succeeds
  }

  predicate Assembles(plan: Plan, w: World) {
    Started(plan, w) && RegisteredRoutesTasksHealth in w.succeeds && RuntimeContractParity in w.succeeds
  }

  // ----- What becomes of each check, one by one -----

  function Attempt(tried: bool, ok: bool): Status {
    if !tried then Skipped else if ok then Passed else Failed
  }

  predicate Installed(plan: Plan, w: World) {
    WebWorkspace in w.succeeds && WebFrozenInstall in w.succeeds
  }

  predicate Built(w: World) {
    CargoTest in w.succeeds && ProfileInfo in w.succeeds
  }

  // A check of the running process.
  function Runtime(plan: Plan, w: World, tried: bool, ok: bool): Status {
    if !Built(w) || Required(plan, w) != [] then Skipped
    else if plan.services != [] then Blocked
    else Attempt(tried, ok)
  }

  // The status every run gives a check, as a function of the world alone.
  function Outcome(plan: Plan, w: World, name: Check): Status {
    var ok := name in w.succeeds;
    match name
    case RenderFresh => Attempt(true, ok)
    case RenderRepeat => Attempt(RenderFresh in w.succeeds, ok)
    case ByteIdentical => Attempt(RenderFresh in w.succeeds && RenderRepeat in w.succeeds, ok)
    case MetadataArtifacts => Attempt(true, ok)
    case DoctorClean => Attempt(true, w.doctorCatalog && ok)
    case DiffClean => Attempt(w.doctorCatalog && DoctorClean in w.succeeds, true)
    case CompositionManifest => Attempt(true, w.catalog.Catalog? && ok)
    case ApplicationRequirements => Attempt(w.catalog.Catalog?, true)
    case ApplicationFixtureOrigin => Attempt(w.catalog.Catalog?, true)
    case CargoTest => Attempt(true, ok)
    case ProfileInfo => Attempt(CargoTest in w.succeeds, ok)
    case MigrationPolicy => Attempt(Built(w), ok)
    case StartupReadiness => Runtime(plan, w, true, ok)
    case RegisteredRoutesTasksHealth => Runtime(plan, w, StartupReadiness in w.succeeds, ok)
    case RepresentativeWorkflow => Runtime(plan, w, StartupReadiness in w.succeeds, true)
    case NegativeWorkflow => Runtime(plan, w, StartupReadiness in w.succeeds, true)
    case BoundedShutdown => Runtime(plan, w, StartupReadiness in w.succeeds, true)
    case DependencyOutage => Runtime(plan, w, StartupReadiness in w.succeeds, true)
    case RuntimeContractParity => Runtime(plan, w, StartupReadiness in w.succeeds, ok)
    case BuildCacheCleanup => Attempt(true, ok)
    case WebWorkspace => Attempt(true, ok)
    case WebFrozenInstall => Attempt(WebWorkspace in w.succeeds, ok)
    case WebContractsCheck => Attempt(Installed(plan, w), ok)
    case WebBuild => Attempt(Installed(plan, w), ok)
    case WebTypecheckTs6 => Attempt(Installed(plan, w), ok)
    case WebTypecheckTs7 => Attempt(Installed(plan, w), ok)
    case WebTest => Attempt(Installed(plan, w), ok)
    case WebE2eSmoke =>
      if plan.e2e && Required(plan, w) != [] then Blocked else Attempt(plan.e2e, ok)
  }

  predicate Needed(plan: Plan, name: Check) {
    name != WebE2eSmoke || plan.e2e
  }

  function EntryFor(plan: Plan, w: World, name: Check): Entry {
    var status := Outcome(plan, w, name);
    Entry(name, Needed(plan, name), status.Passed? || status.Failed?, status, status.Passed?)
  }

  function Table(plan: Plan, w: World, names: seq<Check>): seq<Entry> {
    seq(|names|, i requires 0 <= i < |names| => EntryFor(plan, w, names[i]))
  }

  // ----- The ledger -----

  const RENDER := [RenderFresh, RenderRepeat, ByteIdentical]
  const CATALOG := [MetadataArtifacts, DoctorClean, DiffClean]
  const COMPOSITION := [CompositionManifest, ApplicationRequirements, ApplicationFixtureOrigin]
  const BUILD := [CargoTest, ProfileInfo, MigrationPolicy]
  const PROCESS := [
    RegisteredRoutesTasksHealth, RepresentativeWorkflow, NegativeWorkflow, BoundedShutdown,
    DependencyOutage, RuntimeContractParity]
  const WEB := [
    WebContractsCheck, WebBuild, WebTypecheckTs6, WebTypecheckTs7, WebTest]
  const WEB_SKIPPED := [
    WebContractsCheck, WebTypecheckTs6, WebTypecheckTs7, WebTest, WebBuild]

  function RuntimeOrder(plan: Plan, w: World): seq<Check> {
    if Started(plan, w) then [StartupReadiness] + PROCESS else RUNTIME_CHECKS
  }

  function WebOrder(plan: Plan, w: World): seq<Check> {
    if !plan.web then []
    else [WebWorkspace, WebFrozenInstall] + if Installed(plan, w) then WEB else WEB_SKIPPED
  }

  // A web run that stops at the workspace or the install skips the browser smoke
  // test there, and records it once more later.
  predicate Repeated(plan: Plan, w: World) {
    plan.web && !Installed(plan, w)
  }

  function Front(plan: Plan, w: World): seq<Check> {
    RENDER + CATALOG + COMPOSITION + WebOrder(plan, w)
  }

  function Back(plan: Plan, w: World): seq<Check> {
    BUILD + RuntimeOrder(plan, w) + (if plan.web then [WebE2eSmoke] else []) + [BuildCacheCleanup]
  }

  function Compose(plan: Plan, w: World, front: seq<Check>, again: bool, back: seq<Check>): seq<Entry> {
    Table(plan, w, front) + (if again then [Skip(WebE2eSmoke, plan.e2e)] else []) + Table(plan, w, back)
  }

  function Recorded(plan: Plan, w: World): seq<Entry> {
    Compose(plan, w, Front(plan, w), Repeated(plan, w), Back(plan, w))
  }

  function Expected(plan: Plan): seq<Check> {
    BASE_CHECKS + if plan.web then WEB_CHECKS else []
  }

  function Names(entries: seq<Entry>): seq<Check> {
    seq(|entries|, i requires 0 <= i < |entries| => entries[i].name)
  }

  predicate Green(entries: seq<Entry>) {
    forall i :: 0 <= i < |entries| && entries[i].required ==> entries[i].status == Passed
  }

  predicate HasPassed(entries: seq<Entry>, name: Check) {
    exists i :: 0 <= i < |entries| && entries[i].name == name && entries[i].status == Passed
  }

  predicate Successful(plan: Plan, entries: seq<Entry>) {
    |entries| == |Expected(plan)| && Green(entries)
  }

  // The classification, read off the world's answers.
  function StateOf(plan: Plan, w: World): State {
    if RenderFresh !in w.succeeds then Selected
    else if CargoTest !in w.succeeds then Generated
    else if Assembles(plan, w) && Registrars(plan, w) != [] && CompositionManifest in w.succeeds
            && MigrationPolicy in w.succeeds
    then Assembled
    else Compiled
  }

  // ----- Every run records every expected name -----

  const MIDDLE := [
    CargoTest, BuildCacheCleanup, ProfileInfo, CompositionManifest, MigrationPolicy,
    ApplicationRequirements, ApplicationFixtureOrigin]

  lemma BaseParts()
    ensures BASE_CHECKS == RENDER + CATALOG + MIDDLE + RUNTIME_CHECKS
  {
  }

  lemma MiddleParts()
    ensures multiset(MIDDLE) == multiset(COMPOSITION) + multiset(BUILD) + multiset([BuildCacheCleanup])
  {
  }

  lemma RuntimeParts(plan: Plan, w: World)
    ensures multiset(RuntimeOrder(plan, w)) == multiset(RUNTIME_CHECKS)
  {
    if Started(plan, w) {
      ProcessParts();
      Shuffled([StartupReadiness], PROCESS, RUNTIME_CHECKS[1..], []);
      assert [StartupReadiness] + RUNTIME_CHECKS[1..] + [] == RUNTIME_CHECKS;
      assert multiset(RuntimeOrder(plan, w)) == multiset([StartupReadiness] + PROCESS) + multiset([]);
    }
  }

  lemma ProcessParts()
    ensures multiset(PROCESS) == multiset(RUNTIME_CHECKS[1..])
  {
    assert RUNTIME_CHECKS[1..] == [RegisteredRoutesTasksHealth, RepresentativeWorkflow, NegativeWorkflow,
                                   DependencyOutage, BoundedShutdown, RuntimeContractParity];
  }

  lemma Shuffled(head: seq<Check>, a: seq<Check>, b: seq<Check>, tail: seq<Check>)
    requires multiset(a) == multiset(b)
    ensures multiset(head + a) + multiset(tail) == multiset(head + b + tail)
  {
  }

  lemma SkippedParts()
    ensures multiset(WEB) == multiset(WEB_SKIPPED)
  {
  }

  lemma WebWhole()
    ensures WEB_CHECKS == [WebWorkspace, WebFrozenInstall] + WEB_SKIPPED + [WebE2eSmoke]
  {
  }

  lemma WebParts(plan: Plan, w: World)
    requires plan.web
    ensures multiset(WebOrder(plan, w)) + multiset([WebE2eSmoke]) == multiset(WEB_CHECKS)
  {
    var web := if Installed(plan, w) then WEB else WEB_SKIPPED;
    SkippedParts();
    WebWhole();
    Shuffled([WebWorkspace, WebFrozenInstall], web, WEB_SKIPPED, [WebE2eSmoke]);
  }

  lemma Regroup(render: seq<Check>, catalog: seq<Check>, composition: seq<Check>, web: seq<Check>,
                build: seq<Check>, runtime: seq<Check>, smoke: seq<Check>, cleanup: seq<Check>,
                middle: seq<Check>, tail: seq<Check>, webs: seq<Check>)
    requires multiset(middle) == multiset(composition) + multiset(build) + multiset(cleanup)
    requires multiset(runtime) == multiset(tail)
    requires multiset(web) + multiset(smoke) == multiset(webs)
    ensures multiset(render + catalog + composition + web) + multiset(build + runtime + smoke + cleanup)
            == multiset(render + catalog + middle + tail + webs)
  {
  }

  lemma OrderParts(plan: Plan, w: World)
    ensures multiset(Front(plan, w)) + multiset(Back(plan, w)) == multiset(Expected(plan))
  {
    BaseParts();
    MiddleParts();
    RuntimeParts(plan, w);
    if plan.web { WebParts(plan, w); }
    Regroup(RENDER, CATALOG, COMPOSITION, WebOrder(plan, w), BUILD, RuntimeOrder(plan, w),
            if plan.web then [WebE2eSmoke] else [], [BuildCacheCleanup], MIDDLE, RUNTIME_CHECKS,
            if plan.web then WEB_CHECKS else []);
  }

  lemma NamesTable(plan: Plan, w: World, names: seq<Check>)
    ensures Names(Table(plan, w, names)) == names
  {
  }

  lemma NamesAppend(a: seq<Entry>, b: seq<Entry>)
    ensures Names(a + b) == Names(a) + Names(b)
  {
  }

  lemma ComposedNames(plan: Plan, w: World, front: seq<Check>, again: bool, back: seq<Check>)
    ensures multiset(Names(Compose(plan, w, front, again, back)))
            == multiset(front) + multiset(back) + if again then multiset{WebE2eSmoke} else multiset{}
  {
    var early := if again then [Skip(WebE2eSmoke, plan.e2e)] else [];
    NamesAppend(Table(plan, w, front) + early, Table(plan, w, back));
    NamesAppend(Table(plan, w, front), early);
    NamesTable(plan, w, front);
    NamesTable(plan, w, back);
    assert Names(early) == if again then [WebE2eSmoke] else [];
  }

  // The ledger of every run holds each expected name exactly once, except that a
  // web run without an install holds the browser smoke test twice.
  lemma RecordedNames(plan: Plan, w: World)
    ensures multiset(Names(Recorded(plan, w)))
            == multiset(Expected(plan)) + if Repeated(plan, w) then multiset{WebE2eSmoke} else multiset{}
  {
    ComposedNames(plan, w, Front(plan, w), Repeated(plan, w), Back(plan, w));
    OrderParts(plan, w);
  }

  lemma OnceExactly(plan: Plan, w: World)
    ensures multiset(Names(Recorded(plan, w))) == multiset(Expected(plan)) <==> !Repeated(plan, w)
  {
    RecordedNames(plan, w);
    if Repeated(plan, w) {
      assert (multiset(Expected(plan)) + multiset{WebE2eSmoke})[WebE2eSmoke]
          == multiset(Expected(plan))[WebE2eSmoke] + 1;
    }
  }

  // ----- When a check passes, and when the run does -----

  ghost predicate Covers(front: seq<Check>, back: seq<Check>, expected: seq<Check>) {
    |front| + |back| == |expected| && forall n :: n in expected <==> n in front || n in back
  }

  lemma OrderCovers(plan: Plan, w: World)
    ensures Covers(Front(plan, w), Back(plan, w), Expected(plan))
  {
    OrderParts(plan, w);
    SameSums(Front(plan, w), Back(plan, w), Expected(plan));
  }

  lemma SameSums(front: seq<Check>, back: seq<Check>, expected: seq<Check>)
    requires multiset(front) + multiset(back) == multiset(expected)
    ensures Covers(front, back, expected)
  {
    assert |multiset(front) + multiset(back)| == |front| + |back|;
    forall n ensures n in expected <==> n in front || n in back {
      assert n in multiset(expected) <==> n in multiset(front) || n in multiset(back);
    }
  }

  lemma TableHolds(plan: Plan, w: World, names: seq<Check>, n: Check)
    requires n in names
    ensures EntryFor(plan, w, n) in Table(plan, w, names)
  {
    var i :| 0 <= i < |names| && names[i] == n;
    assert Table(plan, w, names)[i] == EntryFor(plan, w, n);
  }

  lemma ComposedHolds(plan: Plan, w: World, front: seq<Check>, again: bool, back: seq<Check>, n: Check)
    requires n in front || n in back
    ensures EntryFor(plan, w, n) in Compose(plan, w, front, again, back)
  {
    if n in front {
      TableHolds(plan, w, front, n);
    } else {
      TableHolds(plan, w, back, n);
    }
  }

  // An entry of the ledger is the one its name calls for, or the early skip.
  lemma ComposedEntries(plan: Plan, w: World, front: seq<Check>, again: bool, back: seq<Check>, e: Entry)
    requires e in Compose(plan, w, front, again, back)
    ensures (e == EntryFor(plan, w, e.name) && (e.name in front || e.name in back))
            || (again && e == Skip(WebE2eSmoke, plan.e2e))
  {
  }

  lemma ComposedPassed(plan: Plan, w: World, front: seq<Check>, again: bool, back: seq<Check>, n: Check)
    ensures HasPassed(Compose(plan, w, front, again, back), n)
            <==> (n in front || n in back) && Outcome(plan, w, n) == Passed
  {
    var r := Compose(plan, w, front, again, back);
    if HasPassed(r, n) {
      var i :| 0 <= i < |r| && r[i].name == n && r[i].status == Passed;
      ComposedEntries(plan, w, front, again, back, r[i]);
    }
    if (n in front || n in back) && Outcome(plan, w, n) == Passed {
      ComposedHolds(plan, w, front, again, back, n);
      var i :| 0 <= i < |r| && r[i] == EntryFor(plan, w, n);
      assert r[i].name == n && r[i].status == Passed;
    }
  }

  // A check passes in a run exactly when the profile expects it and its own outcome is a pass.
  lemma PassedExactly(plan: Plan, w: World, n: Check)
    ensures HasPassed(Recorded(plan, w), n) <==> n in Expected(plan) && Outcome(plan, w, n) == Passed
  {
    ComposedPassed(plan, w, Front(plan, w), Repeated(plan, w), Back(plan, w), n);
    OrderCovers(plan, w);
  }

  ghost predicate AllPass(plan: Plan, w: World, names: seq<Check>) {
    forall n :: n in names && Needed(plan, n) ==> Outcome(plan, w, n) == Passed
  }

  lemma ComposedGreen(plan: Plan, w: World, front: seq<Check>, back: seq<Check>, expected: seq<Check>)
    requires Covers(front, back, expected)
    ensures Green(Compose(plan, w, front, false, back)) <==> AllPass(plan, w, expected)
  {
    var r := Compose(plan, w, front, false, back);
    if Green(r) {
      forall n | n in expected && Needed(plan, n) ensures Outcome(plan, w, n) == Passed {
        ComposedHolds(plan, w, front, false, back, n);
        var i :| 0 <= i < |r| && r[i] == EntryFor(plan, w, n);
      }
    }
    if AllPass(plan, w, expected) {
      forall i | 0 <= i < |r| && r[i].required ensures r[i].status == Passed {
        ComposedEntries(plan, w, front, false, back, r[i]);
      }
    }
  }

  lemma ComposedLength(plan: Plan, w: World, front: seq<Check>, again: bool, back: seq<Check>)
    ensures |Compose(plan, w, front, again, back)| == |front| + |back| + if again then 1 else 0
  {
  }

  // An early skip makes the ledger too long, and its cause makes it fail anyway.
  lemma ComposedSuccess(plan: Plan, w: World, front: seq<Check>, again: bool, back: seq<Check>,
                        expected: seq<Check>, cause: Check)
    requires Covers(front, back, expected)
    requires again ==> cause in expected && Needed(plan, cause) && Outcome(plan, w, cause) != Passed
    ensures |Compose(plan, w, front, again, back)| == |expected| && Green(Compose(plan, w, front, again, back))
            <==> AllPass(plan, w, expected)
  {
    ComposedLength(plan, w, front, again, back);
    if !again {
      ComposedGreen(plan, w, front, back, expected);
    }
  }

  lemma InstallExpected(plan: Plan)
    requires plan.web
    ensures WebFrozenInstall in Expected(plan)
  {
    assert WEB_CHECKS[1] == WebFrozenInstall;
  }

  // A run succeeds exactly when every expected and needed check passes.
  lemma SuccessExactly(plan: Plan, w: World)
    ensures Successful(plan, Recorded(plan, w)) <==> AllPass(plan, w, Expected(plan))
  {
    OrderCovers(plan, w);
    if plan.web { InstallExpected(plan); }
    ComposedSuccess(plan, w, Front(plan, w), Repeated(plan, w), Back(plan, w), Expected(plan),
                    WebFrozenInstall);
  }

  // ----- What success and the classification mean -----

  predicate OfWeb(n: Check) {
    n in {WebWorkspace, WebFrozenInstall, WebContractsCheck, WebTypecheckTs6, WebTypecheckTs7, WebTest,
          WebBuild, WebE2eSmoke}
  }

  lemma BaseMember(n: Check)
    requires !OfWeb(n)
    ensures n in BASE_CHECKS
  {
    match n
    case RenderFresh => assert BASE_CHECKS[0] == n;
    case RenderRepeat => assert BASE_CHECKS[1] == n;
    case ByteIdentical => assert BASE_CHECKS[2] == n;
    case MetadataArtifacts => assert BASE_CHECKS[3] == n;
    case DoctorClean => assert BASE_CHECKS[4] == n;
    case DiffClean => assert BASE_CHECKS[5] == n;
    case CargoTest => assert BASE_CHECKS[6] == n;
    case BuildCacheCleanup => assert BASE_CHECKS[7] == n;
    case ProfileInfo => assert BASE_CHECKS[8] == n;
    case CompositionManifest => assert BASE_CHECKS[9] == n;
    case MigrationPolicy => assert BASE_CHECKS[10] == n;
    case ApplicationRequirements => assert BASE_CHECKS[11] == n;
    case ApplicationFixtureOrigin => assert BASE_CHECKS[12] == n;
    case StartupReadiness => assert BASE_CHECKS[13] == n;
    case RegisteredRoutesTasksHealth => assert BASE_CHECKS[14] == n;
    case RepresentativeWorkflow => assert BASE_CHECKS[15] == n;
    case NegativeWorkflow => assert BASE_CHECKS[16] == n;
    case DependencyOutage => assert BASE_CHECKS[17] == n;
    case BoundedShutdown => assert BASE_CHECKS[18] == n;
    case RuntimeContractParity => assert BASE_CHECKS[19] == n;
  }

  lemma WebMember(n: Check)
    ensures n in WEB_CHECKS <==> OfWeb(n)
  {
    assert WEB_CHECKS[0] == WebWorkspace && WEB_CHECKS[1] == WebFrozenInstall;
    assert WEB_CHECKS[2] == WebContractsCheck && WEB_CHECKS[3] == WebTypecheckTs6;
    assert WEB_CHECKS[4] == WebTypecheckTs7 && WEB_CHECKS[5] == WebTest;
    assert WEB_CHECKS[6] == WebBuild && WEB_CHECKS[7] == WebE2eSmoke;
  }

  lemma BaseOnly(n: Check)
    requires n in BASE_CHECKS
    ensures !OfWeb(n)
  {
  }

  lemma ExpectedMember(plan: Plan, n: Check)
    ensures n in Expected(plan) <==> OfWeb(n) ==> plan.web
  {
    WebMember(n);
    if n in BASE_CHECKS {
      BaseOnly(n);
    } else if !OfWeb(n) {
      BaseMember(n);
    }
  }

  // The checks that ask the outside world something, for every profile and for web ones.
  const ASKED := {
    RenderFresh, RenderRepeat, ByteIdentical, MetadataArtifacts, DoctorClean, CompositionManifest,
    CargoTest, ProfileInfo, MigrationPolicy, StartupReadiness, RegisteredRoutesTasksHealth,
    RuntimeContractParity, BuildCacheCleanup}

  const ASKED_OF_WEB := {
    WebWorkspace, WebFrozenInstall, WebContractsCheck, WebTypecheckTs6, WebTypecheckTs7, WebTest, WebBuild}

  predicate Favourable(plan: Plan, w: World) {
    && ASKED <= w.succeeds && w.doctorCatalog && w.catalog.Catalog?
    && Required(plan, w) == [] && plan.services == []
    && (plan.web ==> ASKED_OF_WEB <= w.succeeds && (plan.e2e ==> WebE2eSmoke in w.succeeds))
  }

  lemma FavourablePasses(plan: Plan, w: World, n: Check)
    requires Favourable(plan, w) && Needed(plan, n) && (OfWeb(n) ==> plan.web)
    ensures Outcome(plan, w, n) == Passed
  {
  }

  lemma PassesAsked(plan: Plan, w: World, n: Check)
    requires Outcome(plan, w, n) == Passed && (n in ASKED || OfWeb(n))
    ensures n in w.succeeds
  {
  }

  ghost predicate NeededPass(plan: Plan, w: World) {
    forall n :: (OfWeb(n) ==> plan.web) && Needed(plan, n) ==> Outcome(plan, w, n) == Passed
  }

  lemma FavourableExactly(plan: Plan, w: World)
    ensures NeededPass(plan, w) <==> Favourable(plan, w)
  {
    if NeededPass(plan, w) {
      forall n | n in ASKED ensures n in w.succeeds { PassesAsked(plan, w, n); }
      forall n | n in ASKED_OF_WEB && plan.web ensures n in w.succeeds { PassesAsked(plan, w, n); }
      if plan.web && plan.e2e { PassesAsked(plan, w, WebE2eSmoke); }
      assert Outcome(plan, w, DiffClean) == Passed;
      assert Outcome(plan, w, ApplicationRequirements) == Passed;
      assert Outcome(plan, w, StartupReadiness) == Passed;
    }
    if Favourable(plan, w) {
      forall n | (OfWeb(n) ==> plan.web) && Needed(plan, n) ensures Outcome(plan, w, n) == Passed {
        FavourablePasses(plan, w, n);
      }
    }
  }

  lemma AllExpectedPass(plan: Plan, w: World, expected: seq<Check>)
    requires forall n :: n in expected <==> OfWeb(n) ==> plan.web
    ensures AllPass(plan, w, expected) <==> NeededPass(plan, w)
  {
  }

  // Success is a statement about the world: every question is answered well, no
  // module waits for the application and no external service is selected.
  lemma SuccessMeans(plan: Plan, w: World)
    ensures Successful(plan, Recorded(plan, w)) <==> Favourable(plan, w)
  {
    SuccessExactly(plan, w);
    forall n ensures n in Expected(plan) <==> OfWeb(n) ==> plan.web { ExpectedMember(plan, n); }
    AllExpectedPass(plan, w, Expected(plan));
    FavourableExactly(plan, w);
  }

  lemma SuccessRecordsOnce(plan: Plan, w: World)
    requires Successful(plan, Recorded(plan, w))
    ensures multiset(Names(Recorded(plan, w))) == multiset(Expected(plan))
    ensures Required(plan, w) == [] && plan.services == []
  {
    SuccessMeans(plan, w);
    OnceExactly(plan, w);
  }

  // A successful run is assembled exactly when some module registers something;
  // otherwise it stays compiled.
  lemma SuccessState(plan: Plan, w: World)
    requires Successful(plan, Recorded(plan, w))
    ensures StateOf(plan, w) == if Registrars(plan, w) != [] then Assembled else Compiled
  {
    SuccessMeans(plan, w);
  }

  lemma Passing(plan: Plan, w: World, n: Check)
    ensures HasPassed(Recorded(plan, w), n)
            <==> (OfWeb(n) ==> plan.web) && Outcome(plan, w, n) == Passed
  {
    PassedExactly(plan, w, n);
    ExpectedMember(plan, n);
  }

  lemma AssembledNeedsNoService(plan: Plan, w: World)
    requires StateOf(plan, w) == Assembled
    ensures plan.services == [] && Required(plan, w) == [] && Registrars(plan, w) != []
    ensures forall n :: n in RUNTIME_CHECKS ==> HasPassed(Recorded(plan, w), n)
  {
    forall n | n in RUNTIME_CHECKS ensures HasPassed(Recorded(plan, w), n) {
      RuntimePasses(plan, w, n);
      Passing(plan, w, n);
    }
  }

  lemma RuntimePasses(plan: Plan, w: World, n: Check)
    requires StateOf(plan, w) == Assembled && n in RUNTIME_CHECKS
    ensures !OfWeb(n) && Outcome(plan, w, n) == Passed
  {
    RuntimeMember(n);
  }

  lemma RuntimeMember(n: Check)
    requires n in RUNTIME_CHECKS
    ensures !OfWeb(n)
    ensures n in {StartupReadiness, RegisteredRoutesTasksHealth, RepresentativeWorkflow, NegativeWorkflow,
                  DependencyOutage, BoundedShutdown, RuntimeContractParity}
  {
  }

  // What an assembled run can still miss.
  const LEFT := {RenderRepeat, ByteIdentical, MetadataArtifacts, DoctorClean, BuildCacheCleanup}

  predicate Finishes(plan: Plan, w: World) {
    && LEFT <= w.succeeds && w.doctorCatalog
    && (plan.web ==> ASKED_OF_WEB <= w.succeeds && (plan.e2e ==> WebE2eSmoke in w.succeeds))
  }

  lemma AssembledAnswers(plan: Plan, w: World)
    requires StateOf(plan, w) == Assembled
    ensures Favourable(plan, w) <==> Finishes(plan, w)
  {
    assert ASKED == LEFT + {RenderFresh, CompositionManifest, CargoTest, ProfileInfo, MigrationPolicy,
                            StartupReadiness, RegisteredRoutesTasksHealth, RuntimeContractParity};
  }

  // An assembled run succeeds exactly when the rest is answered well too.
  lemma AssembledSucceedsExactly(plan: Plan, w: World)
    requires StateOf(plan, w) == Assembled
    ensures Successful(plan, Recorded(plan, w)) <==> Finishes(plan, w)
  {
    SuccessMeans(plan, w);
    AssembledAnswers(plan, w);
  }

  lemma ModuleAlone(id: ModuleId)
    requires id.Other?
    ensures RegistrarsOf([id], map[id := Module(true, [])]) == [id] && RequiredOf([id], map[id := Module(true, [])]) == []
  {
    assert [id][..0] == [];
  }

  lemma AssembledModule(id: ModuleId, w: World)
    requires id.Other? && w.catalog == Catalog(map[id := Module(true, [])]) && ASKED - {DoctorClean} <= w.succeeds
    ensures StateOf(Plan([id], [], false, false), w) == Assembled
  {
    ModuleAlone(id);
    forall n | n in ASKED && n != DoctorClean ensures n in w.succeeds { assert n in ASKED - {DoctorClean}; }
  }

  // Not every assembled run does: the doctor may complain about a profile that runs.
  lemma AssembledWithoutSuccess(id: ModuleId)
    requires id.Other?
    ensures var plan := Plan([id], [], false, false);
            var w := World(ASKED - {DoctorClean}, true, Catalog(map[id := Module(true, [])]));
            StateOf(plan, w) == Assembled && !Successful(plan, Recorded(plan, w))
  {
    var plan := Plan([id], [], false, false);
    var w := World(ASKED - {DoctorClean}, true, Catalog(map[id := Module(true, [])]));
    AssembledModule(id, w);
    AssembledSucceedsExactly(plan, w);
    assert DoctorClean in LEFT;
  }
}
