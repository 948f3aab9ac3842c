/** The replacement guard (staging/publication.py) against the candidates that
    incremental selection (commands/watch.py) produces. */
module ReplacementGuard {
  import opened Options
  import opened Ownership
  import opened Paths
  import opened Staging
  import opened Manifests
  import opened IncrementalBuild
  import opened IncrementalRefinement
  import opened IncrementalSafety
  import opened StagePublication

  predicate CoordinatorClaimed(p: Path, claims: seq<OutputClaim>) {
    exists i :: 0 <= i < |claims| && claims[i].owner == COORDINATOR && Comparable(claims[i].path, p)
  }

  predicate InUnitArea(p: Path) { p != [] && (p[0] == "content" || p[0] == "static") }

  /** Unit claims are directories under content or static; coordinator claims lie elsewhere. */
  lemma ClaimShape(run: Run, ms: seq<Manifest>, c: OutputClaim)
    requires WellFormed(run) && c in ClaimsOf(run, ms)
    ensures c.unitId.Some? <==> c.owner != COORDINATOR
    ensures c.unitId.Some? ==> c.isDirectory && Plain(c.path) && InUnitArea(c.path)
    ensures c.unitId.None? ==> InCoordinatorArea(c.path)
  {
    OwnershipMapListed(run.units, SharedFiles(run, Flatten(ms)).Keys, c);
    if IsUnitClaim(run.units, c) {
      var u :| u in run.units && c in RootClaimsOf(u, u.Roots());
      UnitRootsClaimed(u, u.Roots(), c);
      assert StagedRoots(u);
      assert c.path in u.contentRoots || c.path in u.staticRoots;
    } else {
      CoordinatorFilesClaimed(run, ms, c.path);
    }
  }

  /** A path is covered by a unit claim exactly when it is claimed, and not by the coordinator. */
  lemma UnitOwnedOrCoordinator(run: Run, ms: seq<Manifest>, p: Path)
    requires WellFormed(run) && p != []
    ensures UnitOwned(p, ClaimsOf(run, ms)) <==> Claimed(p, ClaimsOf(run, ms)) && !CoordinatorClaimed(p, ClaimsOf(run, ms))
  {
    var claims := ClaimsOf(run, ms);
    forall i | 0 <= i < |claims| ensures Comparable(claims[i].path, p) ==>
      (if claims[i].unitId.Some? then InUnitArea(p) && UnitOwned(p, claims) else InCoordinatorArea(p) && CoordinatorClaimed(p, claims))
    {
      ClaimShape(run, ms, claims[i]);
    }
    forall i | 0 <= i < |claims| ensures claims[i].unitId.Some? <==> claims[i].owner != COORDINATOR {
      ClaimShape(run, ms, claims[i]);
    }
  }

  /** Replacing a stage is refused exactly when a path changes its kind or a path
      disappears that is unclaimed or belongs to the coordinator; stage directories
      may hold more than the stage itself. */
  lemma GuardOnPublishedStage(run: Run, ms: seq<Manifest>, stage: Tree, existing: Listing, candidate: Listing)
    requires WellFormed(run) && stage == Stage(run, Layer(run, run.units), ms)
    requires forall p :: p in existing ==> Plain(p)
    ensures ValidateReplacementCleanupScope(existing, candidate, LoadState(stage)).Ok? <==>
      && (forall p :: p in existing && p in candidate ==> existing[p] == candidate[p])
      && (forall p :: p in existing && p !in candidate ==>
            Claimed(p, ClaimsOf(run, ms)) && !CoordinatorClaimed(p, ClaimsOf(run, ms)))
  {
    PublishedState(run, Layer(run, run.units), ms);
    var claims := ClaimsOf(run, ms);
    forall i | 0 <= i < |claims| && claims[i].unitId.Some? ensures Plain(claims[i].path) { ClaimShape(run, ms, claims[i]); }
    GuardIsExact(existing, candidate, LoadState(stage));
    forall p | p in existing
      ensures UnitOwned(p, claims) <==> Claimed(p, claims) && !CoordinatorClaimed(p, claims)
    {
      UnitOwnedOrCoordinator(run, ms, p);
    }
  }

  // Candidates of the next build

  function ListingOf(t: Tree): Listing { map p | p in Entries(t) :: if p in t then Regular else Directory }

  /** No file of one tree is a directory of the other. */
  ghost predicate SameKinds(a: Tree, b: Tree) {
    forall p :: p in Entries(a) && p in Entries(b) ==> (p in a <==> p in b)
  }

  /** A candidate that keeps every file, and no file of which is a directory of the
      other tree, is accepted whatever the old stage claims. */
  lemma GrowingStageAccepted(stage: Tree, next: Tree, state: Option<State>)
    requires stage.Keys <= next.Keys && SameKinds(stage, next)
    ensures ValidateReplacementCleanupScope(ListingOf(stage), ListingOf(next), state).Ok?
  {
    forall p | p in Entries(stage) ensures p in Entries(next) {
      var f, n :| f in stage && 0 < n <= |f| && p == f[..n];
      assert f in next;
    }
    assert ListingOf(stage).Keys - ListingOf(next).Keys == {};
    assert ChangedKinds(ListingOf(stage), ListingOf(next)) == {};
  }

  lemma VanishingCoordinatorPath(run: Run, ms: seq<Manifest>, stage: Tree, next: Tree, p: Path)
    requires WellFormed(run) && stage == Stage(run, Layer(run, run.units), ms)
    requires p in Entries(stage) && p !in Entries(next) && CoordinatorClaimed(p, ClaimsOf(run, ms))
    ensures exists f :: f in CoordinatorFiles(run, ms) && f !in next
  {
    var claims := ClaimsOf(run, ms);
    var i :| 0 <= i < |claims| && claims[i].owner == COORDINATOR && Comparable(claims[i].path, p);
    ClaimShape(run, ms, claims[i]);
    var f, n :| f in stage && 0 < n <= |f| && p == f[..n];
    assert f[0] == p[0];
    StageFiles(run, ms, stage, f);
    if SomeWrites(run, run.units, f) {
      var u :| u in run.units && f in OutputOf(run, u).files;
      UnitFilesAreStaged(run, u, f);
      assert false;
    }
    assert f in next ==> p in Entries(next);
  }

  /** For a candidate whose paths keep their kinds, replacement is accepted if and
      only if every file the coordinator wrote into the old stage is in the candidate. */
  lemma GuardMeetsSelection(run: Run, ms: seq<Manifest>, stage: Tree, next: Tree)
    requires WellFormed(run) && stage == Stage(run, Layer(run, run.units), ms)
    requires SameKinds(stage, next) && forall p :: p in Entries(stage) ==> Plain(p)
    ensures ValidateReplacementCleanupScope(ListingOf(stage), ListingOf(next), LoadState(stage)).Ok? <==>
      forall f :: f in CoordinatorFiles(run, ms) ==> f in next
  {
    var claims := ClaimsOf(run, ms);
    GuardOnPublishedStage(run, ms, stage, ListingOf(stage), ListingOf(next));
    NothingUnclaimed(run, ms, stage);
    assert forall p :: p in Entries(stage) ==> Claimed(p, claims) by {
      assert forall p :: p in Entries(stage) ==> p !in UnclaimedPaths(stage, claims);
    }
    if f :| f in CoordinatorFiles(run, ms) && f !in next {
      MissingCoordinatorFile(run, ms, stage, next, f);
    } else {
      forall p | p in Entries(stage) && p !in Entries(next) ensures !CoordinatorClaimed(p, claims) {
        if CoordinatorClaimed(p, claims) { VanishingCoordinatorPath(run, ms, stage, next, p); }
      }
    }
  }

  lemma MissingCoordinatorFile(run: Run, ms: seq<Manifest>, stage: Tree, next: Tree, f: Path)
    requires WellFormed(run) && stage == Stage(run, Layer(run, run.units), ms)
    requires SameKinds(stage, next) && f in CoordinatorFiles(run, ms) && f !in next
    ensures f in Entries(stage) && f !in Entries(next) && CoordinatorClaimed(f, ClaimsOf(run, ms))
  {
    StageFiles(run, ms, stage, f);
    CoordinatorFilesClaimed(run, ms, f);
    assert f[..|f|] == f;
    assert f in Entries(stage);
    var c := OutputClaim(COORDINATOR, None, false, f);
    OwnershipMapListed(run.units, SharedFiles(run, Flatten(ms)).Keys, c);
    var i :| 0 <= i < |ClaimsOf(run, ms)| && ClaimsOf(run, ms)[i] == c;
    assert Comparable(c.path, f);
  }

  lemma SharedFilesAreShallow(run: Run, pages: seq<Contribution>, f: Path)
    requires PlanFilesApart(run) && f in SharedFiles(run, pages)
    ensures f in SHARED_PATHS && |f| == 2
  {
    assert TRANSLATIONS == SHARED_PATHS[7] && CONTENT_INDEX == SHARED_PATHS[11];
    assert forall i :: 0 <= i < |SHARED_PATHS| ==> |SHARED_PATHS[i]| == 2;
  }

  lemma CandidateInUnitArea(before: Run, ms: seq<Manifest>, stage: Tree, after: Run, dirty: set<string>, p: Path)
    requires Cycle(before, ms, stage, after, dirty)
    ensures p in Candidate(IncrementalRequest(before, ms, stage, after, dirty)) ==> InUnitArea(p)
  {
    CandidateKeys(before, ms, stage, after, dirty, p);
    forall u | Survives(before, after, dirty, u, p) ensures InUnitArea(p) { UnitFilesAreStaged(after, u, p); }
  }

  lemma SharedOrMetadata(run: Run, ms: seq<Manifest>, f: Path)
    requires f in SHARED_PATHS && |f| == 2
    ensures f in CoordinatorFiles(run, ms) <==> f in SharedFiles(run, Flatten(ms))
  {
    assert |UNIT_CONTRIBUTIONS| == 3 && |OUTPUT_OWNERSHIP| == 3 && |AGGREGATE_DEPENDENCIES| == 3 && |MANIFEST| == 1;
  }

  lemma SharedFileStays(before: Run, ms: seq<Manifest>, stage: Tree, after: Run, dirty: set<string>, f: Path)
    requires Cycle(before, ms, stage, after, dirty) && f in SharedFiles(before, Flatten(ms))
    ensures var inc := IncrementalRequest(before, ms, stage, after, dirty);
      f in StageOf(inc) <==> f in SharedFiles(after, Flatten(LoadedManifests(inc)))
  {
    SharedFilesAreShallow(before, Flatten(ms), f);
    SharedPathsAreData(f);
    CandidateInUnitArea(before, ms, stage, after, dirty, f);
    SharedOrMetadata(after, LoadedManifests(IncrementalRequest(before, ms, stage, after, dirty)), f);
  }

  lemma MetadataStays(run: Run, ms: seq<Manifest>, after: Run, ns: seq<Manifest>, f: Path)
    requires f in CoordinatorFiles(run, ms) && f !in SharedFiles(run, Flatten(ms))
    ensures f in CoordinatorFiles(after, ns)
  {
  }

  /** What incremental selection produces is refused exactly when an optional
      aggregate of the old stage has nothing to hold any more. */
  lemma IncrementalReplacement(before: Run, ms: seq<Manifest>, stage: Tree, after: Run, dirty: set<string>)
    requires Cycle(before, ms, stage, after, dirty)
    requires forall p :: p in Entries(stage) ==> Plain(p)
    requires SameKinds(stage, StageOf(IncrementalRequest(before, ms, stage, after, dirty)))
    ensures var inc := IncrementalRequest(before, ms, stage, after, dirty);
      ValidateReplacementCleanupScope(ListingOf(stage), ListingOf(StageOf(inc)), LoadState(stage)).Ok?
      <==> SharedFiles(before, Flatten(ms)).Keys <= SharedFiles(after, Flatten(LoadedManifests(inc))).Keys
  {
    var inc := IncrementalRequest(before, ms, stage, after, dirty);
    GuardMeetsSelection(before, ms, stage, StageOf(inc));
    forall f | f in CoordinatorFiles(before, ms)
      ensures f in StageOf(inc) <==>
        (f in SharedFiles(before, Flatten(ms)) ==> f in SharedFiles(after, Flatten(LoadedManifests(inc))))
    {
      if f in SharedFiles(before, Flatten(ms)) {
        SharedFileStays(before, ms, stage, after, dirty, f);
      } else {
        MetadataStays(before, ms, after, LoadedManifests(inc), f);
      }
    }
    assert forall f :: f in SharedFiles(before, Flatten(ms)) ==> f in CoordinatorFiles(before, ms);
  }

  const DIAGNOSTICS: Path := ["data", "diagnostics.json"]

  lemma DiagnosticsArePlanned(run: Run, pages: seq<Contribution>)
    ensures DIAGNOSTICS in SharedFiles(run, pages) <==> DIAGNOSTICS in run.planFiles
  {
    assert DIAGNOSTICS[1][0] == 'd' && TRANSLATIONS[1][0] == 't' && CONTENT_INDEX[1][0] == 'c';
  }

  /** A site whose last diagnostic is fixed can no longer be published over. */
  lemma FixedDiagnosticsRefused(before: Run, ms: seq<Manifest>, stage: Tree, after: Run, dirty: set<string>)
    requires Cycle(before, ms, stage, after, dirty)
    requires forall p :: p in Entries(stage) ==> Plain(p)
    requires SameKinds(stage, StageOf(IncrementalRequest(before, ms, stage, after, dirty)))
    requires DIAGNOSTICS in before.planFiles && DIAGNOSTICS !in after.planFiles
    ensures var inc := IncrementalRequest(before, ms, stage, after, dirty);
      ValidateReplacementCleanupScope(ListingOf(stage), ListingOf(StageOf(inc)), LoadState(stage)).Err?
  {
    IncrementalReplacement(before, ms, stage, after, dirty);
    DiagnosticsArePlanned(before, Flatten(ms));
    DiagnosticsArePlanned(after, Flatten(LoadedManifests(IncrementalRequest(before, ms, stage, after, dirty))));
  }

  // A witness

  function DiagnosticsFile(diagnostics: Option<string>): Tree {
    if diagnostics.Some? then map[DIAGNOSTICS := Raw(diagnostics.value)] else map[]
  }

  /** A site with empty pages, the usual aggregates and the given diagnostics. */
  function DiagnosedSite(diagnostics: Option<string>): Run {
    Run([SITE_PAGES], map[], [], map[], map[], AGGREGATES + DiagnosticsFile(diagnostics), "")
  }

  lemma DiagnosedSiteWellFormed(diagnostics: Option<string>)
    ensures WellFormed(DiagnosedSite(diagnostics)) && FreshManifests(DiagnosedSite(diagnostics), [SITE_PAGES]) == []
    ensures Layer(DiagnosedSite(diagnostics), [SITE_PAGES]) == map[]
  {
    assert SITE_PAGES.owner[0] == 's' && COORDINATOR[0] == 'c';
    assert StagedRoots(SITE_PAGES);
    DiagnosedPlanFiles(diagnostics);
    assert [SITE_PAGES][..0] == [];
  }

  lemma DiagnosedPlanFiles(diagnostics: Option<string>)
    ensures PlanFilesApart(DiagnosedSite(diagnostics))
    ensures DIAGNOSTICS in DiagnosedSite(diagnostics).planFiles <==> diagnostics.Some?
  {
    forall p | p in AGGREGATES ensures p in SHARED_PATHS && p != TRANSLATIONS && p != CONTENT_INDEX { AggregatesApart(p); }
    assert DIAGNOSTICS == SHARED_PATHS[12] && DIAGNOSTICS[1][0] == 'd' && TRANSLATIONS[1][0] == 't' && CONTENT_INDEX[1][0] == 'c';
    assert SHARED_PATHS[0][1][0] == 'c' && SHARED_PATHS[1][1][0] == 'a' && SHARED_PATHS[2][1][0] == 'r' && SHARED_PATHS[3][1][0] == 'r';
  }

  /** A run that stages nothing leaves its aggregates and the coordinator's metadata. */
  lemma PagelessStage(run: Run, p: Path)
    requires Layer(run, run.units) == map[] && FreshManifests(run, run.units) == []
    ensures p in StageOf(FullRequest(run)) <==> p in run.planFiles || IsMetadata(p)
  {
    FullBuild(run);
    CoordinatorFilesWritten(run, [], p);
    assert Flatten([]) == [];
  }

  predicate CoordinatorFile(p: Path) { p in SHARED_PATHS || IsMetadata(p) }

  lemma SharedPathShape(i: nat)
    requires i < |SHARED_PATHS|
    ensures var p := SHARED_PATHS[i]; |p| == 2 && p[0] == "data" && p[1] != "" && NoSlash(p[1]) && p[1][0] != '_'
  {
  }

  lemma CoordinatorFileShape(p: Path)
    requires CoordinatorFile(p)
    ensures Plain(p) && 1 <= |p| <= 3
    ensures |p| == 1 ==> p[0][0] == 'm'
    ensures |p| > 1 ==> p[0][0] == 'd' && (p[1][0] == '_' <==> |p| == 3)
  {
    if p in SHARED_PATHS {
      var i :| 0 <= i < |SHARED_PATHS| && SHARED_PATHS[i] == p;
      SharedPathShape(i);
      assert NoSlash("data");
    }
  }

  /** No file the coordinator writes is a directory of another. */
  lemma NoFileIsDirectory(f: Path, g: Path, n: nat)
    requires CoordinatorFile(f) && CoordinatorFile(g) && n <= |g| && f == g[..n]
    ensures f == g
  {
    CoordinatorFileShape(f);
    CoordinatorFileShape(g);
  }

  lemma DiagnosedStage(diagnostics: Option<string>, p: Path)
    ensures p in StageOf(FullRequest(DiagnosedSite(diagnostics))) <==> p in DiagnosedSite(diagnostics).planFiles || IsMetadata(p)
    ensures p in StageOf(FullRequest(DiagnosedSite(diagnostics))) ==> CoordinatorFile(p)
  {
    DiagnosedSiteWellFormed(diagnostics);
    PagelessStage(DiagnosedSite(diagnostics), p);
  }

  ghost predicate OnlyCoordinatorFiles(t: Tree) { forall f :: f in t ==> CoordinatorFile(f) }

  lemma CoordinatorEntries(t: Tree, p: Path)
    requires OnlyCoordinatorFiles(t) && p in Entries(t)
    ensures Plain(p)
    ensures CoordinatorFile(p) ==> p in t
  {
    var f, n :| f in t && 0 < n <= |f| && p == f[..n];
    CoordinatorFileShape(f);
    if CoordinatorFile(p) { NoFileIsDirectory(p, f, n); }
  }

  lemma CoordinatorKinds(a: Tree, b: Tree)
    requires OnlyCoordinatorFiles(a) && OnlyCoordinatorFiles(b)
    ensures SameKinds(a, b) && forall p :: p in Entries(a) ==> Plain(p)
  {
    forall p | p in Entries(a) && p in Entries(b) ensures p in a <==> p in b {
      CoordinatorEntries(a, p);
      CoordinatorEntries(b, p);
    }
    forall p | p in Entries(a) ensures Plain(p) { CoordinatorEntries(a, p); }
  }

  lemma DiagnosedKinds(before: Option<string>, after: Option<string>)
    ensures var a, b := StageOf(FullRequest(DiagnosedSite(before))), StageOf(FullRequest(DiagnosedSite(after)));
      SameKinds(a, b) && forall p :: p in Entries(a) ==> Plain(p)
  {
    var a, b := StageOf(FullRequest(DiagnosedSite(before))), StageOf(FullRequest(DiagnosedSite(after)));
    forall f | f in a ensures CoordinatorFile(f) { DiagnosedStage(before, f); }
    forall f | f in b ensures CoordinatorFile(f) { DiagnosedStage(after, f); }
    CoordinatorKinds(a, b);
  }

  /** With every unit dirty any two runs make a cycle. */
  lemma FullyDirtyCycle(before: Run, after: Run, dirty: set<string>)
    requires WellFormed(before) && WellFormed(after) && forall u :: u in after.units ==> u.id in dirty
    ensures Cycle(before, FreshManifests(before, before.units), StageOf(FullRequest(before)), after, dirty)
  {
    FullBuildIsStage(before);
  }

  lemma DiagnosedManifests()
    ensures IncrementalManifests([], DiagnosedSite(None), {SITE_PAGES.id}) == []
  {
    DiagnosedSiteWellFormed(None);
    assert [SITE_PAGES][..0] == [];
    assert Included([SITE_PAGES], Some({SITE_PAGES.id})) == [SITE_PAGES];
  }

  lemma DiagnosedCycle(text: string)
    ensures var before, after := DiagnosedSite(Some(text)), DiagnosedSite(None);
      && Cycle(before, [], StageOf(FullRequest(before)), after, {SITE_PAGES.id})
      && Succeeds(FullRequest(before)) && Succeeds(FullRequest(after))
  {
    DiagnosedSiteWellFormed(Some(text));
    DiagnosedSiteWellFormed(None);
    FullyDirtyCycle(DiagnosedSite(Some(text)), DiagnosedSite(None), {SITE_PAGES.id});
    PagelessBuildSucceeds(DiagnosedSite(Some(text)));
    PagelessBuildSucceeds(DiagnosedSite(None));
  }

  lemma FullyDirtyRebuild(before: Run, ms: seq<Manifest>, after: Run, dirty: set<string>)
    requires Cycle(before, ms, StageOf(FullRequest(before)), after, dirty)
    requires (forall u :: u in after.units ==> u.id in dirty) && after.units != [] && Succeeds(FullRequest(after))
    requires IncrementalManifests(ms, after, dirty) == FreshManifests(after, after.units)
    ensures var stage := StageOf(FullRequest(before));
      var inc := IncrementalRequest(before, ms, stage, after, dirty);
      && SelectIncrementalBuild(after, LoadState(stage), stage, dirty) == inc
      && Succeeds(inc) && StageOf(inc) == StageOf(FullRequest(after))
  {
    NothingRetainedIsSafe(before, after, dirty);
    NothingDiffers(before, ms, StageOf(FullRequest(before)), after, dirty);
  }

  lemma NothingRetainedIsSafe(before: Run, after: Run, dirty: set<string>)
    requires forall u :: u in after.units ==> u.id in dirty
    ensures RetainedSafe(before, after, dirty)
  {
  }

  /** A full rebuild that writes the same kinds of paths is refused when the diagnostics are gone. */
  lemma RefusedRebuild(before: Run, ms: seq<Manifest>, after: Run, dirty: set<string>)
    requires Cycle(before, ms, StageOf(FullRequest(before)), after, dirty)
    requires (forall u :: u in after.units ==> u.id in dirty) && after.units != [] && Succeeds(FullRequest(after))
    requires IncrementalManifests(ms, after, dirty) == FreshManifests(after, after.units)
    requires SameKinds(StageOf(FullRequest(before)), StageOf(FullRequest(after)))
    requires forall p :: p in Entries(StageOf(FullRequest(before))) ==> Plain(p)
    requires DIAGNOSTICS in before.planFiles && DIAGNOSTICS !in after.planFiles
    ensures var stage := StageOf(FullRequest(before));
      var inc := SelectIncrementalBuild(after, LoadState(stage), stage, dirty);
      Succeeds(inc) && ValidateReplacementCleanupScope(ListingOf(stage), ListingOf(StageOf(inc)), LoadState(stage)).Err?
  {
    FullyDirtyRebuild(before, ms, after, dirty);
    FixedDiagnosticsRefused(before, ms, StageOf(FullRequest(before)), after, dirty);
  }

  /** The last diagnostic is fixed, the build succeeds, and its result is refused. */
  lemma LastDiagnosticBlocks(text: string)
    ensures var before, after := DiagnosedSite(Some(text)), DiagnosedSite(None);
      var stage := StageOf(FullRequest(before));
      var inc := SelectIncrementalBuild(after, LoadState(stage), stage, {SITE_PAGES.id});
      && Succeeds(FullRequest(before)) && Succeeds(inc)
      && ValidateReplacementCleanupScope(ListingOf(stage), ListingOf(StageOf(inc)), LoadState(stage)).Err?
  {
    DiagnosedCycle(text);
    DiagnosedManifests();
    DiagnosedSiteWellFormed(None);
    DiagnosedPlanFiles(Some(text));
    DiagnosedPlanFiles(None);
    DiagnosedKinds(Some(text), None);
    RefusedRebuild(DiagnosedSite(Some(text)), [], DiagnosedSite(None), {SITE_PAGES.id});
  }
}
