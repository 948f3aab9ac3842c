/** Concrete watch sessions (commands/watch.py): one that is accounted for, and the
    failures that forget a change or separate a stage from its metadata. */
module WatchExamples {
  import opened Options
  import opened Ownership
  import opened Paths
  import opened Plan
  import opened PlanExamples
  import opened Staging
  import opened Manifests
  import opened DirtyPaths
  import opened IncrementalBuild
  import opened IncrementalRefinement
  import opened IncrementalSafety
  import opened ReplacementGuard
  import opened StagePublication
  import opened WatchRun
  import opened WatchEdits
  import opened WatchConvergence
  import opened WatchFailures
  import Handoff = WatchHandoff

  // Sessions and sites

  /** A session that has just published a full build of the run. */
  function Showing(run: Run): Session {
    var stage := StageOf(FullRequest(run));
    Session(Some(stage), LoadState(stage))
  }

  lemma ShowingIsTrustworthy(run: Run)
    requires WellFormed(run)
    ensures Trustworthy(Showing(run), run) && Agree(Showing(run))
    ensures IsStageOf(Showing(run).stage.value, run, FreshManifests(run, run.units))
  {
    FullBuildIsStage(run);
  }

  lemma {:induction false} NoManifests(run: Run, units: seq<Unit>)
    requires forall u :: u in units ==> OutputOf(run, u).manifest.None?
    ensures FreshManifests(run, units) == []
  {
    if units != [] {
      assert units[|units| - 1] in units;
      NoManifests(run, units[..|units| - 1]);
    }
  }

  const HEALTHY := Faults(false, false, false, false, None)

  function SiteOf(files: Tree): Run {
    IncrementalSafety.Quiet([SITE_PAGES, SITE_ASSETS], map[SITE_ASSETS.id := UnitOutput(files, None)])
  }

  const LOGO: Path := ["static", "site", "logo"]

  /** A site whose only file is its logo. */
  function LogoSite(text: string): Run { SiteOf(map[LOGO := Raw(text)]) }

  const SITE_PLAN := BuildPlan(Some(["w", "pages"]), Some(["w", "assets"]), [], [], [])

  const SITE_LAYOUT := Layout(["w"], ["w", "site"], ["w", "site", "catalog"], None)

  function LogoInputs(text: string): Inputs { Inputs(SITE_PLAN, SITE_LAYOUT, LogoSite(text)) }

  lemma SiteIds()
    ensures SITE_PAGES.id != SITE_ASSETS.id && SITE_PAGES.owner != COORDINATOR && SITE_ASSETS.owner != COORDINATOR
    ensures UnitIds([SITE_PAGES, SITE_ASSETS]) == {SITE_PAGES.id, SITE_ASSETS.id}
  {
    assert SITE_PAGES.id[5] == 'p' && SITE_ASSETS.id[5] == 'a';
    assert SITE_PAGES.owner[0] == 's' && SITE_ASSETS.owner[0] == 's' && COORDINATOR[0] == 'c';
    assert [SITE_PAGES, SITE_ASSETS][0] == SITE_PAGES && [SITE_PAGES, SITE_ASSETS][1] == SITE_ASSETS;
  }

  lemma LogoOutputs(text: string)
    ensures OutputOf(LogoSite(text), SITE_PAGES) == UnitOutput(map[], None)
    ensures OutputOf(LogoSite(text), SITE_ASSETS) == UnitOutput(map[LOGO := Raw(text)], None)
    ensures FreshManifests(LogoSite(text), LogoSite(text).units) == []
  {
    SiteIds();
    NoManifests(LogoSite(text), LogoSite(text).units);
  }

  lemma LogoSiteWellFormed(text: string)
    ensures WellFormed(LogoSite(text))
  {
    SiteIds();
    LogoOutputs(text);
    QuietPlanFiles(LogoSite(text).units, LogoSite(text).outputs);
    var r: Path := ["static", "site"];
    assert r in SITE_ASSETS.Roots() && r <= LOGO;
    SiteRootsStaged();
  }

  /** The edited logo makes the site assets dirty, an edited page only the site pages. */
  lemma LogoDirt(text: string, evaluated: bool)
    ensures Dirty(CycleInput(LogoInputs(text), [["w", "assets", "logo"]], evaluated, false, HEALTHY)) == {SITE_ASSETS.id}
    ensures Dirty(CycleInput(LogoInputs(text), [["w", "pages", "index"]], evaluated, false, HEALTHY)) == {SITE_PAGES.id}
  {
    SiteIds();
    var current := UnitIds(LogoSite(text).units);
    var logo: Path := ["w", "assets", "logo"];
    var page: Path := ["w", "pages", "index"];
    var pages: Path := ["w", "pages"];
    var assets: Path := ["w", "assets"];
    assert assets <= logo && pages <= page && logo[1] != pages[1] && page[1] != assets[1] && page[1] != "site";
    DirtyUnitsOfOne(SITE_LAYOUT, SITE_PLAN, current, logo);
    DirtyUnitsOfOne(SITE_LAYOUT, SITE_PLAN, current, page);
    assert {SITE_PAGES.id} * current == {SITE_PAGES.id} && {SITE_ASSETS.id} * current == {SITE_ASSETS.id};
  }

  // A forgotten change

  lemma PagelessRequestSucceeds(request: Request)
    requires DistinctUnitIds(LoadedManifests(request)) && Flatten(LoadedManifests(request)) == []
    ensures Succeeds(request)
  {
  }

  /** What the stages of these sites hold: the coordinator's files and the logo. */
  predicate SiteFile(p: Path) { CoordinatorFile(p) || p == LOGO }

  lemma SiteFileIsNoDirectory(f: Path, g: Path, n: nat)
    requires SiteFile(f) && SiteFile(g) && n <= |g| && f == g[..n]
    ensures f == g
  {
    assert LOGO[0][0] == 's' && |LOGO| == 3;
    if CoordinatorFile(f) { CoordinatorFileShape(f); }
    if CoordinatorFile(g) { CoordinatorFileShape(g); }
  }

  ghost predicate OnlySiteFiles(t: Tree) { forall f :: f in t ==> SiteFile(f) }

  lemma SiteKinds(a: Tree, b: Tree)
    requires OnlySiteFiles(a) && OnlySiteFiles(b)
    ensures SameKinds(a, b)
  {
    forall p | p in Entries(a) && p in Entries(b) ensures p in a <==> p in b {
      var f, n :| f in a && 0 < n <= |f| && p == f[..n];
      var g, m :| g in b && 0 < m <= |g| && p == g[..m];
      if p in a { SiteFileIsNoDirectory(p, g, m); }
      if p in b { SiteFileIsNoDirectory(p, f, n); }
    }
  }

  /** What a build without pages writes besides unit files. */
  predicate WrittenAnyway(run: Run, p: Path) { p in run.planFiles || IsMetadata(p) }

  lemma ShowingFiles(run: Run, p: Path)
    requires FreshManifests(run, run.units) == []
    ensures p in Showing(run).stage.value <==> WrittenAnyway(run, p) || SomeWrites(run, run.units, p)
  {
    FullBuild(run);
    assert Flatten([]) == [];
    StageFiles(run, [], Showing(run).stage.value, p);
    CoordinatorFilesWritten(run, [], p);
  }

  lemma RebuiltFiles(built: Run, after: Run, dirty: set<string>, p: Path)
    requires ShapedCycle(built, [], Showing(built).stage.value, after, dirty) && IncrementalManifests([], after, dirty) == []
    ensures p in StageOf(IncrementalRequest(built, [], Showing(built).stage.value, after, dirty))
      <==> WrittenAnyway(after, p) || exists u :: Survives(built, after, dirty, u, p)
  {
    assert Flatten([]) == [];
    RequestManifests(built, [], Showing(built).stage.value, after, dirty);
    CandidateKeys(built, [], Showing(built).stage.value, after, dirty, p);
    CoordinatorFilesWritten(after, [], p);
  }

  /** A pageless cycle whose stage only grows reaches the swap. */
  lemma PagelessCycleSwaps(built: Run, c: CycleInput, dirty: set<string>)
    requires WellFormed(built) && c.evaluated && !c.refused && dirty == Dirty(c) && FreshManifests(built, built.units) == []
    requires IncrementalManifests([], c.inputs.run, dirty) == []
    requires var next := StageOf(RequestOf(Showing(built), c));
      OnlySiteFiles(Showing(built).stage.value) && OnlySiteFiles(next) && Showing(built).stage.value.Keys <= next.Keys
    ensures Swaps(Showing(built), c)
  {
    var s := Showing(built);
    ShowingIsTrustworthy(built);
    NextManifests(built, [], s.stage.value, c.inputs.run, dirty);
    assert Flatten([]) == [];
    PagelessRequestSucceeds(RequestOf(s, c));
    ShowingFiles(built, MANIFEST);
    SiteKinds(s.stage.value, StageOf(RequestOf(s, c)));
    GrowingStageAccepted(s.stage.value, StageOf(RequestOf(s, c)), LoadState(s.stage.value));
  }

  function EditedLogo(text: string): CycleInput {
    CycleInput(LogoInputs(text), [["w", "assets", "logo"]], false, false, HEALTHY)
  }

  function EditedPage(text: string): CycleInput {
    CycleInput(LogoInputs(text), [["w", "pages", "index"]], true, false, HEALTHY)
  }

  lemma EditedPageSucceeds(before: string, after: string)
    requires before != after
    ensures Succeeded(Showing(LogoSite(before)), EditedPage(after))
  {
    LogoSiteWellFormed(before);
    LogoOutputs(before);
    LogoDirt(after, true);
    EditedPageManifests(after);
    EditedPageFiles(before, after);
    PagelessCycleSwaps(LogoSite(before), EditedPage(after), {SITE_PAGES.id});
  }

  lemma LogoIsWritten(text: string, p: Path)
    ensures SomeWrites(LogoSite(text), LogoSite(text).units, p) <==> p == LOGO
    ensures WrittenAnyway(LogoSite(text), p) ==> CoordinatorFile(p)
  {
    LogoOutputs(text);
    assert LogoSite(text).units[1] == SITE_ASSETS;
    AggregatesApart(p);
  }

  lemma LogoKeepsShape(before: string, after: string)
    ensures CleanUnitsKeepShape(LogoSite(before), LogoSite(after), {SITE_PAGES.id})
  {
    LogoOutputs(before);
    LogoOutputs(after);
    assert KeepsShape(LogoSite(before), LogoSite(after), SITE_ASSETS);
  }

  lemma ShapedFromShowing(built: Run, after: Run, dirty: set<string>)
    requires WellFormed(built) && WellFormed(after) && FreshManifests(built, built.units) == []
    requires CleanUnitsKeepShape(built, after, dirty)
    ensures ShapedCycle(built, [], Showing(built).stage.value, after, dirty)
  {
    ShowingIsTrustworthy(built);
  }

  lemma LogoShape(before: string, after: string)
    ensures ShapedCycle(LogoSite(before), [], Showing(LogoSite(before)).stage.value, LogoSite(after), {SITE_PAGES.id})
  {
    LogoSiteWellFormed(before);
    LogoSiteWellFormed(after);
    LogoOutputs(before);
    LogoKeepsShape(before, after);
    ShapedFromShowing(LogoSite(before), LogoSite(after), {SITE_PAGES.id});
  }

  lemma LogoSurvives(before: string, after: string, p: Path)
    requires before != after
    ensures (exists u :: Survives(LogoSite(before), LogoSite(after), {SITE_PAGES.id}, u, p)) <==> p == LOGO
  {
    LogoOutputs(after);
    LogoChanged(before, after);
    assert LogoSite(after).units[1] == SITE_ASSETS;
    assert Survives(LogoSite(before), LogoSite(after), {SITE_PAGES.id}, SITE_ASSETS, LOGO);
  }

  lemma EditedPageFiles(before: string, after: string)
    requires before != after
    ensures var stage, next := Showing(LogoSite(before)).stage.value, StageOf(RequestOf(Showing(LogoSite(before)), EditedPage(after)));
      OnlySiteFiles(stage) && OnlySiteFiles(next) && stage.Keys == next.Keys
  {
    var s := Showing(LogoSite(before));
    var stage, next := s.stage.value, StageOf(RequestOf(s, EditedPage(after)));
    LogoDirt(after, true);
    SelectedLogo(before, after);
    forall p ensures (p in stage <==> p in next) && (p in stage ==> SiteFile(p)) { EditedPageFile(before, after, p); }
  }

  lemma SelectedLogo(before: string, after: string)
    ensures var stage := Showing(LogoSite(before)).stage.value;
      SelectIncrementalBuild(LogoSite(after), LoadState(stage), stage, {SITE_PAGES.id})
      == IncrementalRequest(LogoSite(before), [], stage, LogoSite(after), {SITE_PAGES.id})
  {
    LogoShape(before, after);
    SelectedRequest(LogoSite(before), [], Showing(LogoSite(before)).stage.value, LogoSite(after), {SITE_PAGES.id});
  }

  lemma EditedPageFile(before: string, after: string, p: Path)
    requires before != after
    ensures var stage := Showing(LogoSite(before)).stage.value;
      var inc := IncrementalRequest(LogoSite(before), [], stage, LogoSite(after), {SITE_PAGES.id});
      (p in stage <==> p in StageOf(inc)) && (p in stage ==> SiteFile(p))
  {
    LogoShape(before, after);
    LogoOutputs(before);
    EditedPageManifests(after);
    ShowingFiles(LogoSite(before), p);
    RebuiltFiles(LogoSite(before), LogoSite(after), {SITE_PAGES.id}, p);
    LogoIsWritten(before, p);
    LogoSurvives(before, after, p);
  }

  lemma EditedPageManifests(text: string)
    ensures IncrementalManifests([], LogoSite(text), {SITE_PAGES.id}) == []
  {
    SiteIds();
    LogoOutputs(text);
    BuildsOnly(SITE_PAGES, SITE_ASSETS, {SITE_PAGES.id});
    NoManifests(LogoSite(text), [SITE_PAGES]);
  }

  lemma LogoChanged(before: string, after: string)
    requires before != after
    ensures ChangedRawFile(LogoSite(before), LogoSite(after), {SITE_PAGES.id}, SITE_ASSETS, LOGO)
  {
    SiteIds();
    LogoOutputs(before);
    LogoOutputs(after);
    forall v, r | OutputDropped(LogoSite(before), LogoSite(after), {SITE_PAGES.id}, v) && r in v.Roots() ensures !(r <= LOGO) {
      assert v == SITE_PAGES && r[0] == "content" && "content"[0] != LOGO[0][0];
    }
  }

  /** An edited logo whose cycle fails, then an edited page whose cycle succeeds: the
      published stage still has the old logo. */
  lemma EditedLogoStaysStale(before: string, after: string)
    requires before != after
    ensures var failed := AfterCycle(Showing(LogoSite(before)), EditedLogo(after));
      var last := AfterCycle(failed, EditedPage(after));
      && Succeeded(failed, EditedPage(after)) && last.stage.Some?
      && !SameUpToOrder(last.stage.value, StageOf(FullRequest(LogoSite(after))))
  {
    LogoSiteWellFormed(before);
    LogoSiteWellFormed(after);
    ShowingIsTrustworthy(LogoSite(before));
    LogoDirt(after, true);
    LogoDirt(after, false);
    LogoChanged(before, after);
    EditedPageSucceeds(before, after);
    FailedCycleLosesChanges(
      Showing(LogoSite(before)), LogoSite(before), EditedLogo(after), EditedPage(after), SITE_ASSETS, LOGO);
  }

  // A failed sync

  /** A site with empty pages and no assets. */
  const PAGES_SITE := IncrementalSafety.Quiet([SITE_PAGES], map[])

  const PAGES_PLAN := BuildPlan(Some(["w", "pages"]), None, [], [], [])

  /** The cycle in which the logo is added to a site without assets and the sync fails. */
  function AddedLogo(text: string): CycleInput {
    CycleInput(LogoInputs(text), [], true, false, Faults(false, false, false, true, None))
  }

  lemma PagesSiteWellFormed()
    ensures WellFormed(PAGES_SITE) && FreshManifests(PAGES_SITE, PAGES_SITE.units) == [] && Layer(PAGES_SITE, PAGES_SITE.units) == map[]
  {
    SiteIds();
    QuietPlanFiles(PAGES_SITE.units, PAGES_SITE.outputs);
    NoManifests(PAGES_SITE, PAGES_SITE.units);
    assert [SITE_PAGES][..0] == [];
    assert StagedRoots(SITE_PAGES);
  }

  lemma AddedManifests(text: string)
    ensures IncrementalManifests([], LogoSite(text), UnitIds(LogoSite(text).units)) == []
  {
    LogoOutputs(text);
    AllUnitsIncluded(LogoSite(text).units, UnitIds(LogoSite(text).units));
  }

  /** The new run claims the static root of the site, the old one does not. */
  lemma AddedClaim(text: string)
    ensures !SameMetadata(PAGES_SITE, [], LogoSite(text), UnitIds(LogoSite(text).units))
  {
    var c := OutputClaim(SITE_ASSETS.owner, Some(SITE_ASSETS.id), true, ["static", "site"]);
    SiteIds();
    UnitRootsClaimed(SITE_ASSETS, SITE_ASSETS.Roots(), c);
    UnitRootsClaimed(SITE_PAGES, SITE_PAGES.Roots(), c);
    OwnershipMapListed(LogoSite(text).units, SharedFiles(LogoSite(text), Flatten([])).Keys, c);
    OwnershipMapListed(PAGES_SITE.units, SharedFiles(PAGES_SITE, Flatten([])).Keys, c);
    assert LogoSite(text).units[1] == SITE_ASSETS;
    assert IsUnitClaim(LogoSite(text).units, c) && !IsUnitClaim(PAGES_SITE.units, c);
  }

  lemma AddedLogoShape(text: string)
    ensures ShapedCycle(PAGES_SITE, [], Showing(PAGES_SITE).stage.value, LogoSite(text), UnitIds(LogoSite(text).units))
  {
    PagesSiteWellFormed();
    LogoSiteWellFormed(text);
    ShowingIsTrustworthy(PAGES_SITE);
  }

  lemma AddedLogoFiles(text: string)
    ensures var stage, next := Showing(PAGES_SITE).stage.value, StageOf(RequestOf(Showing(PAGES_SITE), AddedLogo(text)));
      OnlySiteFiles(stage) && OnlySiteFiles(next) && stage.Keys <= next.Keys
  {
    var s, dirty := Showing(PAGES_SITE), UnitIds(LogoSite(text).units);
    var stage, next := s.stage.value, StageOf(RequestOf(s, AddedLogo(text)));
    PagesSiteWellFormed();
    AddedLogoShape(text);
    AddedManifests(text);
    SelectedRequest(PAGES_SITE, [], stage, LogoSite(text), dirty);
    forall p ensures (p in stage ==> p in next) && (p in next ==> SiteFile(p)) {
      ShowingFiles(PAGES_SITE, p);
      RebuiltFiles(PAGES_SITE, LogoSite(text), dirty, p);
      LogoIsWritten(text, p);
      if u :| Survives(PAGES_SITE, LogoSite(text), dirty, u, p) { assert SomeWrites(LogoSite(text), LogoSite(text).units, p); }
    }
  }

  lemma AddedLogoSwaps(text: string)
    ensures Swaps(Showing(PAGES_SITE), AddedLogo(text))
  {
    PagesSiteWellFormed();
    AddedManifests(text);
    AddedLogoFiles(text);
    PagelessCycleSwaps(PAGES_SITE, AddedLogo(text), UnitIds(LogoSite(text).units));
  }

  /** A failed sync leaves the new tree visible with the metadata of the old one, for
      runs of two valid plans. */
  lemma FailedSyncDisagrees(text: string)
    ensures var s, c := Showing(PAGES_SITE), AddedLogo(text);
      && Validated(PAGES_SITE.units, PAGES_PLAN, Letter) && FromValidPlan(c.inputs.run, Letter) && InputsOfPlan(c.inputs)
      && Agree(s) && Swaps(s, c) && SyncFails(s, c.faults)
      && AfterCycle(s, c).stage == NextStage(s, c) && !Agree(AfterCycle(s, c))
  {
    PagesSiteWellFormed();
    ShowingIsTrustworthy(PAGES_SITE);
    AddedClaim(text);
    AddedLogoSwaps(text);
    AgreementIsExact(Showing(PAGES_SITE), PAGES_SITE, [], AddedLogo(text));
    LogoInputsAreApart(text);
    PagesUnitsDisjoint();
  }

  lemma PagesUnitsDisjoint()
    ensures Validated([SITE_PAGES], PAGES_PLAN, Letter)
  {
    LettersAreFolded([SITE_PAGES]);
    FoldedRootsAllowed([SITE_PAGES], Letter);
  }

  // A refused replacement

  /** The first scan after the last diagnostic of the site was fixed. */
  const FIXED_DIAGNOSTICS := CycleInput(Inputs(PAGES_PLAN, SITE_LAYOUT, DiagnosedSite(None)), [], true, false, HEALTHY)

  /** Nothing fails and the build succeeds, but without the diagnostics file the cycle
      does not: the old stage stays, with its diagnostics. */
  lemma FixedDiagnosticsCycleFails(text: string)
    ensures var s := Showing(DiagnosedSite(Some(text)));
      && Succeeds(RequestOf(s, FIXED_DIAGNOSTICS)) && !Succeeded(s, FIXED_DIAGNOSTICS)
      && AfterCycle(s, FIXED_DIAGNOSTICS) == s && DIAGNOSTICS in s.stage.value
  {
    var units := DiagnosedSite(None).units;
    assert units[0] == SITE_PAGES;
    assert UnitIds(units) == {SITE_PAGES.id};
    LastDiagnosticBlocks(text);
    DiagnosedStage(Some(text), DIAGNOSTICS);
    DiagnosedPlanFiles(Some(text));
  }

  // A session that is accounted for

  lemma SiteUnitsDisjoint()
    ensures Validated([SITE_PAGES, SITE_ASSETS], SITE_PLAN, Letter)
  {
    var units := [SITE_PAGES, SITE_ASSETS];
    LettersAreFolded(units);
    assert "content"[0] != "static"[0];
    forall u, v, p, q | u in units && v in units && p in u.Roots() && q in v.Roots() && Comparable(p, q) ensures u.owner == v.owner {
      assert p[0] == q[0];
    }
    FoldedRootsAllowed(units, Letter);
  }

  lemma SiteInputsApart(current: set<string>)
    ensures InputsApart(SITE_LAYOUT, SITE_PLAN, current)
  {
    assert |Scanned(SITE_PLAN)| == 3;
    forall id, other, r, s | Tested(SITE_PLAN, id, r) && Reads(SITE_LAYOUT, SITE_PLAN, other, s) && Comparable(r, s) ensures id == other {
      SiteRoots(id, r);
      SiteSources(other, s);
      assert "pages"[0] == 'p' && "assets"[0] == 'a' && "site"[0] == 's';
      assert |r| == 2 && |s| >= 2 && r[1] == s[1];
    }
  }

  lemma SiteRoots(id: string, r: Path)
    requires Tested(SITE_PLAN, id, r)
    ensures (id == SITE_PAGES.id && r == ["w", "pages"]) || (id == SITE_ASSETS.id && r == ["w", "assets"])
  {
    var i :| 0 <= i < |Scanned(SITE_PLAN)| && TestedBy(Scanned(SITE_PLAN)[i], id, r);
    assert i == 0 || i == 1 || i == 2;
  }

  lemma SiteSources(id: string, s: Path)
    requires Reads(SITE_LAYOUT, SITE_PLAN, id, s)
    ensures (id == SITE_PAGES.id && s == ["w", "pages"]) || (id == SITE_ASSETS.id && s == ["w", "assets"]) || s == ["w", "site", "catalog"]
  {
    if !IsConfiguration(SITE_LAYOUT, s) {
      var i :| 0 <= i < |Scanned(SITE_PLAN)| && SourceOf(Scanned(SITE_PLAN)[i], id, s);
      assert i == 0 || i == 1 || i == 2;
    }
  }

  const LOGO_SOURCE: Path := ["w", "assets", "logo"]

  /** The edited logo, rebuilt at once. */
  function RebuiltLogo(text: string): CycleInput { CycleInput(LogoInputs(text), [LOGO_SOURCE], true, false, HEALTHY) }

  lemma LogoEditFeeds()
    ensures Feeds(SITE_LAYOUT, SITE_PLAN, SITE_ASSETS.id, LOGO_SOURCE)
  {
    var assets: Path := ["w", "assets"];
    assert SourceOf(Scanned(SITE_PLAN)[1], SITE_ASSETS.id, assets);
    assert Reads(SITE_LAYOUT, SITE_PLAN, SITE_ASSETS.id, assets) && assets <= LOGO_SOURCE;
  }

  lemma OnlyLogoChanged(before: string, after: string)
    ensures OnlyFedUnitsChanged(LogoSite(before), LogoInputs(after), [LOGO_SOURCE])
  {
    LogoOutputs(before);
    LogoOutputs(after);
    LogoEditFeeds();
    assert LOGO_SOURCE in [LOGO_SOURCE];
    assert Unchanged(LogoSite(before), LogoSite(after), SITE_PAGES);
  }

  lemma LogoEditIsTold(before: string, after: string)
    ensures Told(LogoSite(before), RebuiltLogo(after), [LOGO_SOURCE])
  {
    SiteIds();
    assert VENDOR_ASSETS.id[0] == 'v' && SITE_PAGES.id[0] == 's' && SITE_ASSETS.id[0] == 's';
    assert VENDOR_ASSETS !in LogoSite(before).units;
    assert [LOGO_SOURCE][0] <= LOGO_SOURCE;
    assert SITE_LAYOUT.workspace <= LOGO_SOURCE;
  }

  lemma LogoInputsAreApart(text: string)
    ensures FromValidPlan(LogoSite(text), Letter) && InputsOfPlan(LogoInputs(text))
  {
    LogoSiteWellFormed(text);
    SiteUnitsDisjoint();
    SiteInputsApart(UnitIds(LogoSite(text).units));
  }

  lemma SingleEntryAccounted(s: Session, built: Run, c: CycleInput, edits: seq<Path>, fold: char -> string)
    requires FromValidPlan(c.inputs.run, fold) && InputsOfPlan(c.inputs) && OnlyFedUnitsChanged(built, c.inputs, edits)
    requires Told(built, c, edits) && Recovers(s, c.faults)
    ensures Accounted(s, built, [Entry(c, edits)], fold)
  {
    var log := [Entry(c, edits)];
    assert log[..0] == [] && [] + edits == edits && log[..1] == log;
    assert LastAccounted(s, built, log, fold);
  }

  /** An edit that its cycle is told of: the log is accounted for, and one unit of two
      is rebuilt. */
  lemma EditedLogoIsAccounted(before: string, after: string)
    ensures var s, c := Showing(LogoSite(before)), RebuiltLogo(after);
      && FromValidPlan(LogoSite(before), Letter) && Accounted(s, LogoSite(before), [Entry(c, [LOGO_SOURCE])], Letter)
      && Dirty(c) == {SITE_ASSETS.id}
  {
    LogoDirt(after, true);
    LogoInputsAreApart(before);
    LogoInputsAreApart(after);
    OnlyLogoChanged(before, after);
    LogoEditIsTold(before, after);
    SingleEntryAccounted(Showing(LogoSite(before)), LogoSite(before), RebuiltLogo(after), [LOGO_SOURCE], Letter);
  }

  // An edit that a scan reads before its event

  const PAGE_SOURCE: Path := ["w", "pages", "index"]

  /** A page and then the logo were edited after the first full scans; only the event of the page has been read. */
  const RACE := Handoff.Moment([PAGE_SOURCE, LOGO_SOURCE], [["w"]], [1], [Handoff.Scan(0, []), Handoff.Scan(0, [])])

  /** The loop allows the next scan to read a logo it was not told of: the edit log is
      not accounted for, and until the queued event is read the stage is not the full
      build of what the scan read. */
  lemma RacingEditIsStale(before: string, after: string)
    requires before != after
    ensures Handoff.Coherent(RACE) && Handoff.Accounted(RACE, EditedPage(after).dirtyPaths)
    ensures var s, c := Showing(LogoSite(before)), EditedPage(after);
      && !Accounted(s, LogoSite(before), [Entry(c, RACE.edits)], Letter)
      && Succeeded(s, c) && !SameUpToOrder(AfterCycle(s, c).stage.value, StageOf(FullRequest(LogoSite(after))))
  {
    RaceIsAccounted(after);
    EditedPageSucceeds(before, after);
    RaceIsUntold(before, after);
    RaceIsStale(before, after);
  }

  lemma RaceIsAccounted(after: string)
    ensures Handoff.Coherent(RACE) && Handoff.Accounted(RACE, EditedPage(after).dirtyPaths)
  {
    var dirty := EditedPage(after).dirtyPaths;
    assert dirty[0] == PAGE_SOURCE && dirty[0] <= PAGE_SOURCE;
    assert 1 in RACE.unread by { assert RACE.unread[0] == 1; }
  }

  lemma UntoldIsUnaccounted(s: Session, built: Run, c: CycleInput, edits: seq<Path>, p: Path, fold: char -> string)
    requires Succeeded(s, c) && c.dirtyPaths != [] && p in edits && !IsCovered(p, c.dirtyPaths)
    ensures !Accounted(s, built, [Entry(c, edits)], fold)
  {
    var log := [Entry(c, edits)];
    assert log[..0] == [] && log[..1] == log && [] + edits == edits;
    assert !Told(built, c, edits);
    assert !LastAccounted(s, built, log[..1], fold);
  }

  lemma PageCoversNoLogo(text: string)
    ensures EditedPage(text).dirtyPaths != [] && !IsCovered(LOGO_SOURCE, EditedPage(text).dirtyPaths)
    ensures LOGO_SOURCE in RACE.edits
  {
    assert RACE.edits[1] == LOGO_SOURCE;
    assert LOGO_SOURCE[1][0] == 'a' && PAGE_SOURCE[1][0] == 'p';
  }

  lemma RaceIsUntold(before: string, after: string)
    requires Succeeded(Showing(LogoSite(before)), EditedPage(after))
    ensures !Accounted(Showing(LogoSite(before)), LogoSite(before), [Entry(EditedPage(after), RACE.edits)], Letter)
  {
    PageCoversNoLogo(after);
    UntoldIsUnaccounted(Showing(LogoSite(before)), LogoSite(before), EditedPage(after), RACE.edits, LOGO_SOURCE, Letter);
  }

  lemma RaceIsStale(before: string, after: string)
    requires before != after && Succeeded(Showing(LogoSite(before)), EditedPage(after))
    ensures var last := AfterCycle(Showing(LogoSite(before)), EditedPage(after));
      last.stage.Some? && !SameUpToOrder(last.stage.value, StageOf(FullRequest(LogoSite(after))))
  {
    var s := Showing(LogoSite(before));
    LogoSiteWellFormed(before);
    LogoSiteWellFormed(after);
    LogoOutputs(before);
    ShowingIsTrustworthy(LogoSite(before));
    LogoDirt(after, true);
    LogoChanged(before, after);
    StaleStage(LogoSite(before), [], s.stage.value, LogoSite(after), {SITE_PAGES.id}, SITE_ASSETS, LOGO);
    SuccessfulSession(s, EditedPage(after));
  }

  // A world that settles

  /** The site whose logo is edited once. */
  function LogoWorld(before: string, after: string): World {
    World(SITE_PLAN, SITE_LAYOUT, [LOGO_SOURCE], [LogoSite(before), LogoSite(after)])
  }

  const LOGO_SCANS := [Handoff.Scan(0, []), Handoff.Scan(0, []), Handoff.Scan(1, [LOGO_SOURCE])]

  lemma LogoRuns(before: string, after: string, text: string)
    requires text == before || text == after
    ensures RunOf(LogoWorld(before, after), LogoSite(text))
  {
    LogoSiteWellFormed(text);
    LogoOutputs(text);
  }

  lemma LogoNeverClashes(before: string, after: string)
    ensures NeverClash(LogoWorld(before, after))
  {
    LogoOutputs(before);
    LogoOutputs(after);
  }

  lemma LogoChangesWhenFed(before: string, after: string, u: Unit)
    requires u in PlannedUnits(SITE_PLAN)
    ensures FedOrSame(LogoWorld(before, after), 0, u)
  {
    LogoOutputs(before);
    LogoOutputs(after);
    LogoEditFeeds();
  }

  /** A world that meets the conditions, with scans that have seen every edit. */
  lemma LogoWorldSettles(before: string, after: string)
    ensures var w := LogoWorld(before, after); Edited(w, Letter) && Scans(w, LOGO_SCANS) && SeesAll(w, LOGO_SCANS)
  {
    var w := LogoWorld(before, after);
    SiteUnitsDisjoint();
    SiteInputsApart(Ids(w));
    LogoNeverClashes(before, after);
    LogoRuns(before, after, before);
    LogoRuns(before, after, after);
    forall t, u | 0 <= t < |w.edits| && u in PlannedUnits(w.plan) ensures FedOrSame(w, t, u) { LogoChangesWhenFed(before, after, u); }
    LogoScansAllowed(w);
    assert Handoff.ScanSees(LOGO_SCANS[2], 0, LOGO_SOURCE) by { assert LOGO_SCANS[2].dirty[0] <= LOGO_SOURCE; }
  }

  lemma LogoScansAllowed(w: World)
    requires w.plan == SITE_PLAN && w.layout == SITE_LAYOUT && |w.runs| == 2
    ensures Scans(w, LOGO_SCANS)
  {
    assert VENDOR_ASSETS.id[0] == 'v' && SITE_PAGES.id[0] == 's' && SITE_ASSETS.id[0] == 's';
    assert VENDOR_ASSETS !in PlannedUnits(SITE_PLAN);
    assert SITE_LAYOUT.workspace <= LOGO_SOURCE;
  }
}
