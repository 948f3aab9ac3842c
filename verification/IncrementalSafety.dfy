/** When an incremental build retains everything it should, for the units a plan
    yields, and what goes wrong otherwise. */
module IncrementalSafety {
  import opened Options
  import opened Ownership
  import opened Paths
  import opened Plan
  import opened PlanExamples
  import opened Staging
  import opened Manifests
  import opened IncrementalBuild
  import opened IncrementalRefinement

  /** Only the site assets and the vendored assets share an owner. */
  lemma OwnersOfPlan(plan: BuildPlan, u: Unit, v: Unit)
    requires DistinctSlugs(plan.components) && u in PlannedUnits(plan) && v in PlannedUnits(plan) && u.owner == v.owner
    ensures u == v || (u == SITE_ASSETS && v == VENDOR_ASSETS) || (u == VENDOR_ASSETS && v == SITE_ASSETS)
  {
    UnitIdsDistinct(plan);
    OwnerOfUnit(plan, u);
    OwnerOfUnit(plan, v);
    if u !in SiteUnits(plan) && v !in SiteUnits(plan) { SameIdSameUnit(PlannedUnits(plan), u, v); }
    assert SITE_PAGES.owner[5] == 'c' && SITE_ASSETS.owner[5] == 's';
    assert SITE_PAGES.owner[0] == 's' && SITE_ASSETS.owner[0] == 's';
  }

  lemma OwnerOfUnit(plan: BuildPlan, u: Unit)
    requires u in PlannedUnits(plan)
    ensures u in SiteUnits(plan) ==> u == SITE_PAGES || u == SITE_ASSETS || u == VENDOR_ASSETS
    ensures u !in SiteUnits(plan) ==> u.owner == u.id && u.owner != "" && u.owner[0] == 'c'
  {
    if u !in SiteUnits(plan) {
      var all := ComponentUnits(plan, |plan.components|);
      var k :| 0 <= k < |all| && all[k] == u;
      ComponentUnitsFromComponents(plan, |plan.components|, k);
      var i :| 0 <= i < |plan.components| && u == UnitAt(plan, i);
      assert ComponentId(plan.components[i].slug)[0] == 'c';
    }
  }

  /** The roots that nest are dropped together or kept together. */
  ghost predicate NestedUnitsTogether(before: Run, after: Run, dirty: set<string>) {
    SITE_ASSETS in before.units && VENDOR_ASSETS in before.units ==>
      (OutputDropped(before, after, dirty, SITE_ASSETS) <==> OutputDropped(before, after, dirty, VENDOR_ASSETS))
  }

  /** Validated units of a plan are retained safely when the two nested site roots
      are dropped together or kept together. */
  lemma ValidatedPlansAreSafe(before: Run, after: Run, dirty: set<string>, plan: BuildPlan, fold: char -> string)
    requires before.units == PlannedUnits(plan) && DistinctSlugs(plan.components) && Disjoint(before.units, fold)
    requires WellFormed(after) && CleanUnitsUnchanged(before, after, dirty)
    requires NestedUnitsTogether(before, after, dirty)
    ensures RetainedSafe(before, after, dirty)
  {
    forall u, p | u in after.units && u.id !in dirty && p in OutputOf(after, u).files
      ensures !UnderDroppedRoot(before, after, dirty, p)
    {
      assert Unchanged(before, after, u);
      UnitFilesAreStaged(after, u, p);
      var q :| q in u.Roots() && q <= p;
      forall v, r | OutputDropped(before, after, dirty, v) && r in v.Roots() ensures !(r <= p) {
        if r <= p {
          FoldKeepsPrefix(fold, q, p);
          FoldKeepsPrefix(fold, r, p);
          AtMostOneOwner(before.units, fold, u, v, q, r, p);
          OwnersOfPlan(plan, u, v);
          assert false;
        }
      }
    }
  }

  lemma VendorRootIsNested(before: Run, after: Run, p: Path)
    requires WellFormed(after) && SITE_ASSETS in before.units
    requires VENDOR_ASSETS in after.units && p in OutputOf(after, VENDOR_ASSETS).files
    ensures UnderDroppedRoot(before, after, {SITE_ASSETS.id}, p)
  {
    assert WritesUnderRoots(after, VENDOR_ASSETS);
    assert OutputDropped(before, after, {SITE_ASSETS.id}, SITE_ASSETS);
    var r: Path := ["static", "site"];
    assert r in SITE_ASSETS.Roots() && r <= ["static", "site", "vendor"];
  }

  lemma SiteIdsDiffer()
    ensures SITE_ASSETS.id != VENDOR_ASSETS.id && SITE_ASSETS.owner != COORDINATOR && VENDOR_ASSETS.owner != COORDINATOR
  {
    assert VENDOR_ASSETS.id[0] == 'v' && SITE_ASSETS.id[0] == 's';
    assert SITE_ASSETS.owner[0] == 's' && VENDOR_ASSETS.owner[0] == 's' && COORDINATOR[0] == 'c';
  }

  /** Rebuilding the site assets alone loses every vendored file: the vendor root
      lies inside the site root that is removed, and its unit is not run. */
  lemma DirtySiteAssetsLoseVendorFiles(before: Run, ms: seq<Manifest>, stage: Tree, after: Run, p: Path)
    requires Cycle(before, ms, stage, after, {SITE_ASSETS.id})
    requires SITE_ASSETS in before.units && VENDOR_ASSETS in after.units && p in OutputOf(after, VENDOR_ASSETS).files
    ensures var inc := SelectIncrementalBuild(after, LoadState(stage), stage, {SITE_ASSETS.id});
      p in StageOf(FullRequest(after)) && p !in StageOf(inc)
  {
    SiteIdsDiffer();
    VendorRootIsNested(before, after, p);
    SelectionLosesFile(before, ms, stage, after, {SITE_ASSETS.id}, VENDOR_ASSETS, p);
  }

  // Witnesses

  lemma SelfCycle(run: Run, dirty: set<string>)
    requires WellFormed(run) && CleanUnitsUnchanged(run, run, dirty)
    ensures Cycle(run, FreshManifests(run, run.units), StageOf(FullRequest(run)), run, dirty)
  {
    FullBuildIsStage(run);
  }

  lemma PagelessBuildSucceeds(run: Run)
    requires WellFormed(run) && Flatten(FreshManifests(run, run.units)) == []
    ensures Succeeds(FullRequest(run))
  {
    FullBuild(run);
    FreshDistinct(run, run.units);
  }

  /** The aggregates every run writes. */
  const AGGREGATES: Tree :=
    map[SHARED_PATHS[0] := Raw("components"), SHARED_PATHS[1] := Raw("artifacts"),
        SHARED_PATHS[2] := Raw("routes"), SHARED_PATHS[3] := Raw("redirects")]

  lemma AggregatesApart(p: Path)
    ensures p in AGGREGATES ==> p in SHARED_PATHS && p != TRANSLATIONS && p != CONTENT_INDEX && |p| == 2
  {
    assert SHARED_PATHS[0][1][0] == 'c' && SHARED_PATHS[0][1][2] == 'm' && CONTENT_INDEX[1][2] == 'n';
    assert SHARED_PATHS[1][1][0] == 'a' && SHARED_PATHS[2][1][0] == 'r' && SHARED_PATHS[3][1][0] == 'r';
    assert TRANSLATIONS[1][0] == 't' && CONTENT_INDEX[1][0] == 'c';
  }

  function Quiet(units: seq<Unit>, outputs: map<string, UnitOutput>): Run {
    Run(units, outputs, [], map[], map[], AGGREGATES, "")
  }

  lemma QuietPlanFiles(units: seq<Unit>, outputs: map<string, UnitOutput>)
    ensures PlanFilesApart(Quiet(units, outputs))
  {
    forall p | p in AGGREGATES ensures p in SHARED_PATHS && p != TRANSLATIONS && p != CONTENT_INDEX { AggregatesApart(p); }
  }

  function VendoredRun(file: Path): Run {
    Quiet([SITE_ASSETS, VENDOR_ASSETS], map[VENDOR_ASSETS.id := UnitOutput(map[file := Raw("")], None)])
  }

  /** With nothing changed at all, rebuilding the site assets of a site with one
      vendored file loses that file. */
  lemma VendoredFileLost(file: Path)
    requires ["static", "site", "vendor"] <= file
    ensures var run := VendoredRun(file);
      var stage := StageOf(FullRequest(run));
      var inc := SelectIncrementalBuild(run, LoadState(stage), stage, {SITE_ASSETS.id});
      Succeeds(FullRequest(run)) && file in stage && file !in StageOf(inc)
  {
    var run := VendoredRun(file);
    VendoredOutputs(file);
    VendoredRunWellFormed(file);
    VendoredUnchanged(file);
    SelfCycle(run, {SITE_ASSETS.id});
    PagelessBuildSucceeds(run);
    DirtySiteAssetsLoseVendorFiles(run, FreshManifests(run, run.units), StageOf(FullRequest(run)), run, file);
  }

  lemma VendoredOutputs(file: Path)
    ensures OutputOf(VendoredRun(file), SITE_ASSETS) == UnitOutput(map[], None)
    ensures OutputOf(VendoredRun(file), VENDOR_ASSETS) == UnitOutput(map[file := Raw("")], None)
    ensures FreshManifests(VendoredRun(file), VendoredRun(file).units) == []
  {
    SiteIdsDiffer();
    FreshPair(VendoredRun(file), SITE_ASSETS, VENDOR_ASSETS);
  }

  lemma VendoredUnchanged(file: Path)
    ensures var run := VendoredRun(file); CleanUnitsUnchanged(run, run, {SITE_ASSETS.id})
  {
    VendoredOutputs(file);
  }

  lemma VendoredRunWellFormed(file: Path)
    requires ["static", "site", "vendor"] <= file
    ensures WellFormed(VendoredRun(file))
  {
    SiteIdsDiffer();
    QuietPlanFiles(VendoredRun(file).units, VendoredRun(file).outputs);
    VendoredOutputs(file);
    var r: Path := ["static", "site", "vendor"];
    assert r in VENDOR_ASSETS.Roots() && r <= file;
    assert StagedRoots(SITE_ASSETS) && StagedRoots(VENDOR_ASSETS);
  }

  function One(m: Option<Manifest>): seq<Manifest> { if m.Some? then [m.value] else [] }

  lemma FreshPair(run: Run, u: Unit, v: Unit)
    ensures FreshManifests(run, [u, v]) == One(ManifestOf(run, u)) + One(ManifestOf(run, v))
  {
    assert [u, v][..1] == [u] && [u][..0] == [];
    assert FreshManifests(run, [u]) == One(ManifestOf(run, u));
  }

  lemma FlattenPair(m: Manifest, n: Manifest)
    ensures Flatten([m, n]) == m.pages + n.pages
  {
    FlattenLast([], m);
    FlattenLast([m], n);
    assert [] + [m] == [m] && [m] + [n] == [m, n];
    assert Flatten([]) + m.pages == m.pages;
  }

  lemma RetainsOnly(m: Manifest, n: Manifest, current: set<string>, dirty: set<string>)
    requires m.unitId in dirty && n.unitId in current && n.unitId !in dirty
    ensures Retained([m, n], current, dirty) == [n]
  {
    assert [m, n][..1] == [m] && [m][..0] == [];
    assert Retained([m], current, dirty) == [];
  }

  lemma BuildsOnly(u: Unit, v: Unit, dirty: set<string>)
    requires u.id in dirty && v.id !in dirty
    ensures Included([u, v], Some(dirty)) == [u]
  {
    assert [u, v][..1] == [u] && [u][..0] == [];
    assert Included([u], Some(dirty)) == [u];
  }

  lemma SingleManifest(run: Run, u: Unit, n: Manifest)
    requires n.pages == []
    ensures FreshManifests(run, [u]) == One(ManifestOf(run, u))
    ensures NormalizeAll(run, [n]) == [n]
  {
    assert [u][..0] == [] && [n][..0] == [];
    assert Normalize(run.workspace, run.bindings, n) == n;
  }

  /** Two units without pages. */
  function TwoUnits(u: Unit, v: Unit): Run {
    Quiet([u, v], map[u.id := UnitOutput(map[], Some(Manifest(u.id, []))), v.id := UnitOutput(map[], Some(Manifest(v.id, [])))])
  }

  /** Two components without version contexts, each at its own home. */
  function TwoComponentPlan(a: string, b: string): BuildPlan {
    BuildPlan(
      None, None, [],
      [Component(a, OwnPublication(a, None, []), None, Some(["w", "a", "pages"]), None, Some(["w", "a"])),
       Component(b, OwnPublication(b, None, []), None, Some(["w", "b", "pages"]), None, Some(["w", "b"]))],
      [])
  }

  function TwoComponents(a: string, b: string): Run { TwoUnits(UnitAt(TwoComponentPlan(a, b), 0), UnitAt(TwoComponentPlan(a, b), 1)) }

  /** The run of two components is a run of their plan, which passes validation. */
  lemma TwoComponentsPlanned(a: string, b: string)
    requires a != b && IsName(a) && IsName(b)
    ensures TwoComponents(a, b).units == PlannedUnits(TwoComponentPlan(a, b))
    ensures AllAllowed(Claims(TwoComponents(a, b).units, Letter))
  {
    var plan := TwoComponentPlan(a, b);
    assert ComponentUnits(plan, 1) == [UnitAt(plan, 0)];
    assert ComponentUnits(plan, 2) == [UnitAt(plan, 0), UnitAt(plan, 1)];
    LettersAreFolded(PlannedUnits(plan));
    HomePlanIsValid(plan, Letter);
  }

  predicate StageableUnits(u: Unit, v: Unit) {
    u.id != v.id && StagedRoots(u) && StagedRoots(v) && u.owner != COORDINATOR && v.owner != COORDINATOR
  }

  lemma ComponentIdsDiffer(a: string, b: string)
    ensures ComponentId(a) == ComponentId(b) ==> a == b
    ensures ComponentId(a) != COORDINATOR
  {
    assert ComponentId(a)[10..] == a && ComponentId(b)[10..] == b;
    assert ComponentId(a)[2] == 'm' && COORDINATOR[2] == 'o';
  }

  lemma TwoComponentsStageable(a: string, b: string)
    requires a != b && IsName(a) && IsName(b)
    ensures StageableUnits(UnitAt(TwoComponentPlan(a, b), 0), UnitAt(TwoComponentPlan(a, b), 1))
  {
    var plan := TwoComponentPlan(a, b);
    UnitAtStaged(plan, 0);
    UnitAtStaged(plan, 1);
    ComponentIdsDiffer(a, b);
    ComponentIdsDiffer(b, a);
  }

  /** A safe incremental build that lists its manifests differently differs from
      the full build in that order alone. */
  lemma OnlyOrderDiffers(before: Run, ms: seq<Manifest>, stage: Tree, after: Run, dirty: set<string>)
    requires Cycle(before, ms, stage, after, dirty) && Succeeds(FullRequest(after))
    requires RetainedSafe(before, after, dirty) && after.units != []
    requires IncrementalManifests(ms, after, dirty) != FreshManifests(after, after.units)
    ensures var inc := SelectIncrementalBuild(after, LoadState(stage), stage, dirty);
      Succeeds(inc) && SameUpToOrder(StageOf(inc), StageOf(FullRequest(after))) && StageOf(inc) != StageOf(FullRequest(after))
  {
    IncrementalBuildIsExact(before, ms, stage, after, dirty);
    SelectedRequest(before, ms, stage, after, dirty);
    RequestManifests(before, ms, stage, after, dirty);
  }

  /** A safe incremental build that lists its manifests alike is the full build. */
  lemma NothingDiffers(before: Run, ms: seq<Manifest>, stage: Tree, after: Run, dirty: set<string>)
    requires Cycle(before, ms, stage, after, dirty) && Succeeds(FullRequest(after))
    requires RetainedSafe(before, after, dirty) && after.units != []
    requires IncrementalManifests(ms, after, dirty) == FreshManifests(after, after.units)
    ensures var inc := IncrementalRequest(before, ms, stage, after, dirty);
      && SelectIncrementalBuild(after, LoadState(stage), stage, dirty) == inc
      && Succeeds(inc) && StageOf(inc) == StageOf(FullRequest(after))
  {
    IncrementalBuildIsExact(before, ms, stage, after, dirty);
    SelectedRequest(before, ms, stage, after, dirty);
    RequestManifests(before, ms, stage, after, dirty);
  }

  /** Retained manifests come before rebuilt ones, so rebuilding the first of any
      two components already swaps the lists. */
  lemma ManifestOrderDiffers(a: string, b: string)
    requires a != b && IsName(a) && IsName(b)
    ensures var run := TwoComponents(a, b);
      var stage := StageOf(FullRequest(run));
      var inc := SelectIncrementalBuild(run, LoadState(stage), stage, {ComponentId(a)});
      && run.units == PlannedUnits(TwoComponentPlan(a, b)) && AllAllowed(Claims(run.units, Letter))
      && Succeeds(inc) && SameUpToOrder(StageOf(inc), stage) && StageOf(inc) != stage
  {
    TwoComponentsPlanned(a, b);
    TwoComponentsStageable(a, b);
    UnitOrderDiffers(UnitAt(TwoComponentPlan(a, b), 0), UnitAt(TwoComponentPlan(a, b), 1));
  }

  lemma UnitOrderDiffers(u: Unit, v: Unit)
    requires StageableUnits(u, v)
    ensures var run := TwoUnits(u, v);
      var stage := StageOf(FullRequest(run));
      var inc := SelectIncrementalBuild(run, LoadState(stage), stage, {u.id});
      Succeeds(inc) && SameUpToOrder(StageOf(inc), stage) && StageOf(inc) != stage
  {
    var run, ms := TwoUnits(u, v), [Manifest(u.id, []), Manifest(v.id, [])];
    TwoUnitsCycle(u, v);
    RebuiltFirst(u, v);
    assert ms[0] != [Manifest(v.id, []), Manifest(u.id, [])][0];
    OnlyOrderDiffers(run, ms, StageOf(FullRequest(run)), run, {u.id});
  }

  lemma RebuiltFirst(u: Unit, v: Unit)
    requires u.id != v.id
    ensures IncrementalManifests([Manifest(u.id, []), Manifest(v.id, [])], TwoUnits(u, v), {u.id}) == [Manifest(v.id, []), Manifest(u.id, [])]
  {
    var run := TwoUnits(u, v);
    assert run.units[1] == v && v.id in UnitIds(run.units);
    RetainsOnly(Manifest(u.id, []), Manifest(v.id, []), UnitIds(run.units), {u.id});
    BuildsOnly(u, v, {u.id});
    SingleManifest(run, u, Manifest(v.id, []));
  }

  lemma TwoUnitsCycle(u: Unit, v: Unit)
    requires StageableUnits(u, v)
    ensures var run := TwoUnits(u, v);
      && FreshManifests(run, run.units) == [Manifest(u.id, []), Manifest(v.id, [])]
      && Cycle(run, FreshManifests(run, run.units), StageOf(FullRequest(run)), run, {u.id})
      && Succeeds(FullRequest(run)) && RetainedSafe(run, run, {u.id})
  {
    var run := TwoUnits(u, v);
    TwoUnitsWellFormed(u, v);
    SelfCycle(run, {u.id});
    FreshPair(run, u, v);
    FlattenPair(Manifest(u.id, []), Manifest(v.id, []));
    PagelessBuildSucceeds(run);
  }

  lemma TwoUnitsWellFormed(u: Unit, v: Unit)
    requires StageableUnits(u, v)
    ensures var run := TwoUnits(u, v); WellFormed(run) && CleanUnitsUnchanged(run, run, {u.id}) && RetainedSafe(run, run, {u.id})
  {
    var run := TwoUnits(u, v);
    QuietPlanFiles(run.units, run.outputs);
    assert OutputOf(run, u) == UnitOutput(map[], Some(Manifest(u.id, [])));
    assert OutputOf(run, v) == UnitOutput(map[], Some(Manifest(v.id, [])));
    assert forall w :: w in run.units ==> w == u || w == v;
  }
}
