/** An incremental build of watch mode refines the full build of the same inputs. */
module IncrementalRefinement {
  import opened Options
  import opened Ownership
  import opened Paths
  import opened Staging
  import opened Manifests
  import opened IncrementalBuild

  // Units that did not change

  predicate Contributes(output: UnitOutput, p: Path) { output.manifest.Some? && HasPageAt(output.manifest.value, p) }

  /** The same page but for the key that finalization overwrites. */
  predicate SameButPipeline(f: File, g: File) {
    f.Page? && g.Page? && f.body == g.body && f.meta - {"pipeline"} == g.meta - {"pipeline"}
  }

  /** The same manifest and the same file names. */
  predicate SameShape(before: UnitOutput, after: UnitOutput) {
    before.manifest == after.manifest && before.files.Keys == after.files.Keys
  }

  ghost predicate SameFiles(before: UnitOutput, after: UnitOutput) {
    forall p :: p in before.files && p in after.files ==> SameFileAt(before, after, p)
  }

  predicate SameFileAt(before: UnitOutput, after: UnitOutput, p: Path)
    requires p in before.files && p in after.files
  {
    before.files[p] == after.files[p] || (Contributes(after, p) && SameButPipeline(before.files[p], after.files[p]))
  }

  /** Normalizing the retained manifest again gives what normalizing the worker's gives. */
  predicate StableManifest(before: Run, after: Run, u: Unit) {
    var m := OutputOf(after, u).manifest;
    m.Some? ==>
      Normalize(after.workspace, after.bindings, Normalize(before.workspace, before.bindings, m.value))
      == Normalize(after.workspace, after.bindings, m.value)
  }

  /** The unit contributes what it did, under the same names. */
  ghost predicate KeepsShape(before: Run, after: Run, u: Unit) {
    u in before.units && SameShape(OutputOf(before, u), OutputOf(after, u)) && StableManifest(before, after, u)
  }

  ghost predicate Unchanged(before: Run, after: Run, u: Unit) {
    KeepsShape(before, after, u) && SameFiles(OutputOf(before, u), OutputOf(after, u))
  }

  ghost predicate CleanUnitsUnchanged(before: Run, after: Run, dirty: set<string>) {
    forall u :: u in after.units && u.id !in dirty ==> Unchanged(before, after, u)
  }

  ghost predicate CleanUnitsKeepShape(before: Run, after: Run, dirty: set<string>) {
    forall u :: u in after.units && u.id !in dirty ==> KeepsShape(before, after, u)
  }

  predicate OutputDropped(before: Run, after: Run, dirty: set<string>, v: Unit) {
    v in before.units && (v.id in dirty || v.id !in UnitIds(after.units))
  }

  ghost predicate UnderDroppedRoot(before: Run, after: Run, dirty: set<string>, p: Path) {
    exists v, r :: OutputDropped(before, after, dirty, v) && r in v.Roots() && r <= p
  }

  /** No file of a retained unit lies under a root that is removed. */
  ghost predicate RetainedSafe(before: Run, after: Run, dirty: set<string>) {
    forall u, p :: u in after.units && u.id !in dirty && p in OutputOf(after, u).files ==>
      !UnderDroppedRoot(before, after, dirty, p)
  }

  // Source provenance

  /** A page whose source lies inside the workspace keeps its provenance when a
      retained manifest is normalized again. */
  lemma RenormalizationKeepsWorkspacePages(workspace: Path, bindings: map<PageOwner, Binding>, c: Contribution)
    requires c.source.AbsoluteSource? ==> workspace < c.source.path && ".." !in c.source.path
    requires c.source.RelativeSource? ==> c.source.path != [] && ".." !in c.source.path
    ensures var once := NormalizePage(workspace, bindings, c);
      NormalizePage(workspace, bindings, once) == once
  {
    if c.source.AbsoluteSource? {
      var rest := c.source.path[|workspace|..];
      assert workspace + rest == c.source.path;
      assert forall x :: x in rest ==> x in c.source.path;
    }
  }

  /** The source keeps a public form that is itself a proper relative path. */
  predicate KeepsPublicForm(workspace: Path, source: Source) {
    match source
    case NoSource => false
    case RelativeSource(p) => p != [] && ".." !in p
    case AbsoluteSource(p) => workspace < p && ".." !in p[|workspace|..]
  }

  /** A second normalization changes nothing exactly when the source keeps its public
      form, or has none and the page had no provenance to lose. */
  lemma RenormalizationIsExact(workspace: Path, bindings: map<PageOwner, Binding>, c: Contribution)
    ensures var once := NormalizePage(workspace, bindings, c);
      NormalizePage(workspace, bindings, once) == once <==>
        KeepsPublicForm(workspace, c.source)
        || (PublicSource(workspace, c.source).NoSource? && once.provenance.None?)
  {
    if KeepsPublicForm(workspace, c.source) && c.source.AbsoluteSource? {
      assert workspace + c.source.path[|workspace|..] == c.source.path;
    }
  }

  lemma {:induction false} PagesStable(before: Run, after: Run, pages: seq<Contribution>)
    requires forall c :: c in pages ==>
      NormalizePage(after.workspace, after.bindings, NormalizePage(before.workspace, before.bindings, c))
      == NormalizePage(after.workspace, after.bindings, c)
    ensures NormalizePages(after.workspace, after.bindings, NormalizePages(before.workspace, before.bindings, pages))
      == NormalizePages(after.workspace, after.bindings, pages)
  {
    if pages != [] {
      var front, last := pages[..|pages| - 1], pages[|pages| - 1];
      PagesStable(before, after, front);
      var once := NormalizePages(before.workspace, before.bindings, pages);
      assert once[..|once| - 1] == NormalizePages(before.workspace, before.bindings, front);
      assert last in pages;
    }
  }

  /** Sources in the workspace and unchanged bindings make a manifest stable. */
  lemma WorkspaceManifestsAreStable(before: Run, after: Run, u: Unit)
    requires before.workspace == after.workspace
    requires OutputOf(after, u).manifest.Some? ==> forall c :: c in OutputOf(after, u).manifest.value.pages ==>
      && BindingFor(before.bindings, c.owner) == BindingFor(after.bindings, c.owner)
      && c.source.AbsoluteSource? && after.workspace < c.source.path && ".." !in c.source.path
    ensures StableManifest(before, after, u)
  {
    var m := OutputOf(after, u).manifest;
    if m.Some? {
      forall c | c in m.value.pages
        ensures NormalizePage(after.workspace, after.bindings, NormalizePage(before.workspace, before.bindings, c))
                == NormalizePage(after.workspace, after.bindings, c)
      {
        assert NormalizePage(before.workspace, before.bindings, c) == NormalizePage(after.workspace, after.bindings, c);
        RenormalizationKeepsWorkspacePages(after.workspace, after.bindings, c);
      }
      PagesStable(before, after, m.value.pages);
    }
  }

  // What the selection removes

  lemma StageFiles(run: Run, ms: seq<Manifest>, stage: Tree, p: Path)
    requires stage == Stage(run, Layer(run, run.units), ms)
    ensures p in stage <==> p in CoordinatorFiles(run, ms) || SomeWrites(run, run.units, p)
  {
    LayerFiles(run, run.units, p);
  }

  /** Every entry of a stage this pipeline published is claimed. */
  lemma NothingUnclaimed(run: Run, ms: seq<Manifest>, stage: Tree)
    requires WellFormed(run) && stage == Stage(run, Layer(run, run.units), ms)
    ensures UnclaimedPaths(stage, OwnershipMap(run.units, SharedFiles(run, Flatten(ms)).Keys)) == {}
  {
    var claims := OwnershipMap(run.units, SharedFiles(run, Flatten(ms)).Keys);
    forall p | p in Entries(stage) ensures Claimed(p, claims) {
      var f, n :| f in stage && 0 < n <= |f| && p == f[..n];
      var c := ClaimAbove(run, ms, stage, f);
      PrefixesOfOnePathCompare(c.path, p, f);
      var i :| 0 <= i < |claims| && claims[i] == c;
    }
  }

  lemma ClaimAbove(run: Run, ms: seq<Manifest>, stage: Tree, f: Path) returns (c: OutputClaim)
    requires WellFormed(run) && stage == Stage(run, Layer(run, run.units), ms) && f in stage
    ensures c in OwnershipMap(run.units, SharedFiles(run, Flatten(ms)).Keys) && c.path <= f
  {
    var written := SharedFiles(run, Flatten(ms)).Keys;
    StageFiles(run, ms, stage, f);
    if f in CoordinatorFiles(run, ms) {
      c := OutputClaim(COORDINATOR, None, false, f);
      CoordinatorFilesClaimed(run, ms, f);
    } else {
      var u :| u in run.units && f in OutputOf(run, u).files;
      assert WritesUnderRoots(run, u);
      var r :| r in u.Roots() && r <= f;
      c := OutputClaim(u.owner, Some(u.id), true, r);
      UnitRootsClaimed(u, u.Roots(), c);
      assert IsUnitClaim(run.units, c);
    }
    OwnershipMapListed(run.units, written, c);
  }

  lemma MetadataWritten(run: Run, ms: seq<Manifest>)
    ensures var shared, files := SharedFiles(run, Flatten(ms)).Keys, CoordinatorFiles(run, ms);
      && UNIT_CONTRIBUTIONS in files && files[UNIT_CONTRIBUTIONS] == UnitContributions(ms)
      && OUTPUT_OWNERSHIP in files && files[OUTPUT_OWNERSHIP] == OutputOwnership(OwnershipMap(run.units, shared))
      && AGGREGATE_DEPENDENCIES in files && files[AGGREGATE_DEPENDENCIES].AggregateDependencies?
  {
    assert UNIT_CONTRIBUTIONS[2][0] == 'u' && OUTPUT_OWNERSHIP[2][0] == 'o' && AGGREGATE_DEPENDENCIES[2][0] == 'a';
    assert |MANIFEST| == 1;
    var f := SharedFiles(run, Flatten(ms));
    MetadataOver(run, f, MetadataFiles(run, f.Keys), UnitContributions(ms));
  }

  lemma MetadataOver(run: Run, f: Tree, m: Tree, x: File)
    requires m == MetadataFiles(run, f.Keys)
    requires OUTPUT_OWNERSHIP != UNIT_CONTRIBUTIONS && AGGREGATE_DEPENDENCIES != UNIT_CONTRIBUTIONS
    requires OUTPUT_OWNERSHIP != AGGREGATE_DEPENDENCIES && MANIFEST != OUTPUT_OWNERSHIP && MANIFEST != AGGREGATE_DEPENDENCIES
    ensures var files := f + m + map[UNIT_CONTRIBUTIONS := x];
      && UNIT_CONTRIBUTIONS in files && files[UNIT_CONTRIBUTIONS] == x
      && OUTPUT_OWNERSHIP in files && files[OUTPUT_OWNERSHIP] == m[OUTPUT_OWNERSHIP]
      && AGGREGATE_DEPENDENCIES in files && files[AGGREGATE_DEPENDENCIES] == m[AGGREGATE_DEPENDENCIES]
      && m[OUTPUT_OWNERSHIP] == OutputOwnership(OwnershipMap(run.units, f.Keys))
      && m[AGGREGATE_DEPENDENCIES].AggregateDependencies?
  {
  }

  /** What a run claims: the roots of its units and the files its coordinator writes. */
  function ClaimsOf(run: Run, ms: seq<Manifest>): seq<OutputClaim> {
    OwnershipMap(run.units, SharedFiles(run, Flatten(ms)).Keys)
  }

  /** A finished stage exposes its manifests and claims, whatever its unit files are. */
  lemma PublishedState(run: Run, t: Tree, ms: seq<Manifest>)
    ensures LoadState(Stage(run, t, ms)) == Some(State(ms, ClaimsOf(run, ms)))
  {
    MetadataWritten(run, ms);
    OverlayReads(Finalized(t, run.summaries, Flatten(ms), Flatten(ms)), CoordinatorFiles(run, ms));
  }

  lemma OverlayReads(t: Tree, files: Tree)
    requires UNIT_CONTRIBUTIONS in files && OUTPUT_OWNERSHIP in files && AGGREGATE_DEPENDENCIES in files
    ensures LoadState(t + files) == LoadState(files)
  {
  }

  function Removed(before: Run, ms: seq<Manifest>, after: Run, dirty: set<string>): set<Path> {
    DroppedPaths(OwnershipMap(before.units, SharedFiles(before, Flatten(ms)).Keys), UnitIds(after.units), dirty)
  }

  lemma SelectedRequest(before: Run, ms: seq<Manifest>, stage: Tree, after: Run, dirty: set<string>)
    requires WellFormed(before) && stage == Stage(before, Layer(before, before.units), ms) && after.units != []
    ensures SelectIncrementalBuild(after, LoadState(stage), stage, dirty)
      == Request(after, Some(dirty), stage, Removed(before, ms, after, dirty), Retained(ms, UnitIds(after.units), dirty))
  {
    PublishedState(before, Layer(before, before.units), ms);
    NothingUnclaimed(before, ms, stage);
    SelectionOf(after, State(ms, ClaimsOf(before, ms)), stage, dirty);
  }

  lemma SelectionOf(run: Run, state: State, stage: Tree, dirty: set<string>)
    requires run.units != [] && UnclaimedPaths(stage, state.claims) == {}
    ensures SelectIncrementalBuild(run, Some(state), stage, dirty)
      == Request(run, Some(dirty), stage, DroppedPaths(state.claims, UnitIds(run.units), dirty),
                 Retained(state.manifests, UnitIds(run.units), dirty))
  {
    assert run.units[0].id in UnitIds(run.units);
  }

  /** Among published files, the removals cover the coordinator's and those under dropped roots. */
  lemma RemovalsCover(before: Run, ms: seq<Manifest>, after: Run, dirty: set<string>, p: Path)
    requires WellFormed(before)
    ensures p in CoordinatorFiles(before, ms) ==> Covered(p, Removed(before, ms, after, dirty))
    ensures p != [] && (p[0] == "content" || p[0] == "static") ==>
      (Covered(p, Removed(before, ms, after, dirty)) <==> UnderDroppedRoot(before, after, dirty, p))
  {
    var written := SharedFiles(before, Flatten(ms)).Keys;
    var removed := Removed(before, ms, after, dirty);
    if p in CoordinatorFiles(before, ms) {
      CoordinatorFilesClaimed(before, ms, p);
      var c := OutputClaim(COORDINATOR, None, false, p);
      OwnershipMapListed(before.units, written, c);
      assert Dropped(c, UnitIds(after.units), dirty);
      assert p in removed;
    }
    if UnderDroppedRoot(before, after, dirty, p) {
      var v, r :| OutputDropped(before, after, dirty, v) && r in v.Roots() && r <= p;
      var c := OutputClaim(v.owner, Some(v.id), true, r);
      UnitRootsClaimed(v, v.Roots(), c);
      OwnershipMapListed(before.units, written, c);
      assert r in removed;
    }
    if p != [] && (p[0] == "content" || p[0] == "static") && Covered(p, removed) {
      var r :| r in removed && r <= p;
      DroppedClaimIsDroppedRoot(before, ms, after, dirty, r, p);
    }
  }

  lemma DroppedClaimIsDroppedRoot(before: Run, ms: seq<Manifest>, after: Run, dirty: set<string>, r: Path, p: Path)
    requires WellFormed(before)
    requires p != [] && (p[0] == "content" || p[0] == "static")
    requires r in Removed(before, ms, after, dirty) && r <= p
    ensures UnderDroppedRoot(before, after, dirty, p)
  {
    var written := SharedFiles(before, Flatten(ms)).Keys;
    var c :| c in OwnershipMap(before.units, written) && Dropped(c, UnitIds(after.units), dirty) && c.path == r;
    OwnershipMapListed(before.units, written, c);
    if IsUnitClaim(before.units, c) {
      var v :| v in before.units && c in RootClaimsOf(v, v.Roots());
      UnitRootsClaimed(v, v.Roots(), c);
      assert OutputDropped(before, after, dirty, v);
    } else {
      CoordinatorFilesClaimed(before, ms, r);
      assert false;
    }
  }

  // What the candidate holds

  /** The files an incremental candidate holds before finalization. */
  lemma CandidateFiles(before: Run, ms: seq<Manifest>, stage: Tree, after: Run, dirty: set<string>, p: Path)
    requires WellFormed(before)
    requires WellFormed(after) && CleanUnitsKeepShape(before, after, dirty)
    requires stage == Stage(before, Layer(before, before.units), ms)
    ensures var kept := Prune(stage, Removed(before, ms, after, dirty));
      p in kept <==> (exists u :: u in after.units && u.id !in dirty && p in OutputOf(after, u).files
                        && !UnderDroppedRoot(before, after, dirty, p))
  {
    var kept := Prune(stage, Removed(before, ms, after, dirty));
    StageFiles(before, ms, stage, p);
    RemovalsCover(before, ms, after, dirty, p);
    if p in kept {
      var v :| v in before.units && p in OutputOf(before, v).files;
      UnitFilesAreStaged(before, v, p);
      var r :| r in v.Roots() && r <= p;
      assert !OutputDropped(before, after, dirty, v);
      var u :| u in after.units && u.id == v.id;
      assert KeepsShape(before, after, u);
      SameIdSameUnit(before.units, u, v);
    }
    if u :| u in after.units && u.id !in dirty && p in OutputOf(after, u).files && !UnderDroppedRoot(before, after, dirty, p) {
      assert KeepsShape(before, after, u);
      UnitFilesAreStaged(after, u, p);
      assert SomeWrites(before, before.units, p);
    }
  }

  lemma UnitFilesAreStaged(run: Run, u: Unit, p: Path)
    requires WellFormed(run) && u in run.units && p in OutputOf(run, u).files
    ensures p != [] && (p[0] == "content" || p[0] == "static")
    ensures exists r :: r in u.Roots() && r <= p
  {
    assert WritesUnderRoots(run, u) && StagedRoots(u);
    var r :| r in u.Roots() && r <= p;
    assert r in u.contentRoots || r in u.staticRoots;
    assert r[0] == p[0];
  }

  // Manifests

  ghost predicate FromUnit(run: Run, u: Unit, m: Manifest) { u in run.units && ManifestOf(run, u) == Some(m) }

  lemma StageManifestFrom(run: Run, ms: seq<Manifest>, m: Manifest)
    requires WellFormed(run) && SameManifests(ms, FreshManifests(run, run.units))
    ensures m in ms <==> exists u :: FromUnit(run, u, m)
    ensures forall u :: FromUnit(run, u, m) ==> m.unitId == u.id
  {
    FreshMembers(run, run.units, m);
    if u :| u in run.units && ManifestOf(run, u) == Some(m) { assert FromUnit(run, u, m); }
    forall u | FromUnit(run, u, m) ensures m.unitId == u.id { assert OwnManifest(run, u); }
  }

  lemma RetainedMatch(before: Run, ms: seq<Manifest>, after: Run, dirty: set<string>, m: Manifest)
    requires WellFormed(before) && WellFormed(after) && CleanUnitsKeepShape(before, after, dirty)
    requires SameManifests(ms, FreshManifests(before, before.units))
    ensures m in NormalizeAll(after, Retained(ms, UnitIds(after.units), dirty))
      <==> m.unitId !in dirty && m in FreshManifests(after, after.units)
  {
    var kept := Retained(ms, UnitIds(after.units), dirty);
    NormalizedMembers(after, kept, m);
    FreshDistinct(after, after.units);
    StageManifestFrom(after, FreshManifests(after, after.units), m);
    if m in NormalizeAll(after, kept) {
      var n :| n in kept && m == Normalize(after.workspace, after.bindings, n);
      RetainedMembers(ms, UnitIds(after.units), dirty, n);
      StageManifestFrom(before, ms, n);
      var v :| FromUnit(before, v, n);
      var u :| u in after.units && u.id == n.unitId;
      assert KeepsShape(before, after, u);
      SameIdSameUnit(before.units, u, v);
      assert FromUnit(after, u, m);
    }
    if m.unitId !in dirty && m in FreshManifests(after, after.units) {
      var u :| FromUnit(after, u, m);
      assert KeepsShape(before, after, u) && u.id in UnitIds(after.units);
      var n := ManifestOf(before, u).value;
      assert FromUnit(before, u, n);
      StageManifestFrom(before, ms, n);
      RetainedMembers(ms, UnitIds(after.units), dirty, n);
    }
  }

  lemma BuiltMatch(after: Run, dirty: set<string>, m: Manifest)
    requires WellFormed(after)
    ensures m in FreshManifests(after, Included(after.units, Some(dirty)))
      <==> m.unitId in dirty && m in FreshManifests(after, after.units)
  {
    FreshMembers(after, after.units, m);
    FreshMembers(after, Included(after.units, Some(dirty)), m);
    forall u ensures u in Included(after.units, Some(dirty)) <==> u in after.units && u.id in dirty {
      IncludedUnits(after.units, dirty, u);
    }
    forall u | u in after.units && ManifestOf(after, u) == Some(m) ensures u.id == m.unitId {
      assert OwnManifest(after, u);
    }
  }

  function IncrementalManifests(ms: seq<Manifest>, after: Run, dirty: set<string>): seq<Manifest> {
    NormalizeAll(after, Retained(ms, UnitIds(after.units), dirty))
    + FreshManifests(after, Included(after.units, Some(dirty)))
  }

  /** Retained and rebuilt manifests never share a unit, so the duplicate check
      passes, and together they are the manifests of the full build. */
  lemma ManifestsRecombine(before: Run, ms: seq<Manifest>, after: Run, dirty: set<string>)
    requires WellFormed(before) && WellFormed(after) && CleanUnitsKeepShape(before, after, dirty)
    requires SameManifests(ms, FreshManifests(before, before.units))
    ensures SameManifests(IncrementalManifests(ms, after, dirty), FreshManifests(after, after.units))
    ensures multiset(IncrementalManifests(ms, after, dirty)) == multiset(FreshManifests(after, after.units))
  {
    var kept, built := NormalizeAll(after, Retained(ms, UnitIds(after.units), dirty)),
                       FreshManifests(after, Included(after.units, Some(dirty)));
    RetainedDistinct(ms, UnitIds(after.units), dirty);
    NormalizedDistinct(after, Retained(ms, UnitIds(after.units), dirty));
    FreshDistinct(after, after.units);
    IncludedDistinct(after.units, dirty);
    forall u | u in Included(after.units, Some(dirty)) ensures OwnManifest(after, u) { IncludedUnits(after.units, dirty, u); }
    FreshDistinct(after, Included(after.units, Some(dirty)));
    forall m ensures m in kept <==> m.unitId !in dirty && m in FreshManifests(after, after.units) {
      RetainedMatch(before, ms, after, dirty, m);
    }
    forall m ensures m in built <==> m.unitId in dirty && m in FreshManifests(after, after.units) {
      BuiltMatch(after, dirty, m);
    }
    ConcatDistinct(kept, built, dirty);
    SameManifestsArePermutations(IncrementalManifests(ms, after, dirty), FreshManifests(after, after.units));
  }

  lemma ConcatDistinct(a: seq<Manifest>, b: seq<Manifest>, ids: set<string>)
    requires DistinctUnitIds(a) && DistinctUnitIds(b)
    requires forall m :: m in a ==> m.unitId !in ids
    requires forall m :: m in b ==> m.unitId in ids
    ensures DistinctUnitIds(a + b)
  {
    forall i, j | 0 <= i < j < |a + b| ensures (a + b)[i].unitId != (a + b)[j].unitId {
      if i < |a| <= j { assert a[i] in a && b[j - |a|] in b; }
    }
  }

  // Files

  lemma NormalizedPagesStay(run: Run, u: Unit, p: Path)
    ensures ManifestOf(run, u).Some? && HasPageAt(ManifestOf(run, u).value, p) <==> Contributes(OutputOf(run, u), p)
  {
    var raw := OutputOf(run, u).manifest;
    if raw.Some? {
      if c :| c in ManifestOf(run, u).value.pages && c.stagePath == p {
        NormalizedPages(run.workspace, run.bindings, raw.value.pages, c);
      }
      if c :| c in raw.value.pages && c.stagePath == p {
        NormalizedPages(run.workspace, run.bindings, raw.value.pages, NormalizePage(run.workspace, run.bindings, c));
      }
    }
  }

  /** A unit's file is finalized exactly when the unit contributes it as a page. */
  lemma ContributedHere(run: Run, ms: seq<Manifest>, u: Unit, p: Path)
    requires WellFormed(run) && SameManifests(ms, FreshManifests(run, run.units))
    requires u in run.units && p in OutputOf(run, u).files
    ensures PageAt(Flatten(ms), p).Some? <==> Contributes(OutputOf(run, u), p)
  {
    forall n | n in ms && HasPageAt(n, p) ensures FromUnit(run, u, n) {
      StageManifestFrom(run, ms, n);
      var v :| FromUnit(run, v, n);
      NormalizedPagesStay(run, v, p);
      assert OwnManifest(run, v);
    }
    NormalizedPagesStay(run, u, p);
    if Contributes(OutputOf(run, u), p) {
      var m := ManifestOf(run, u).value;
      assert FromUnit(run, u, m);
      StageManifestFrom(run, ms, m);
      forall n | n in ms && HasPageAt(n, p) ensures n.unitId == m.unitId { assert FromUnit(run, u, n); }
      PageAtFlatten(ms, m, p);
      PageAtFinds(m.pages, p);
    } else {
      forall n | n in ms ensures HasPageAt(n, p) ==> FromUnit(run, u, n) {
      }
      NoPageAtFlatten(ms, p);
    }
  }

  lemma SameButPipelineFinalizes(f: File, g: File, block: Block)
    requires SameButPipeline(f, g)
    ensures SetPipeline(f, block) == SetPipeline(g, block)
  {
    forall k | k in f.meta && k != "pipeline" ensures k in g.meta && f.meta[k] == g.meta[k] {
      assert (f.meta - {"pipeline"})[k] == (g.meta - {"pipeline"})[k];
    }
    forall k | k in g.meta && k != "pipeline" ensures k in f.meta {
      assert k in (g.meta - {"pipeline"});
    }
    assert f.meta["pipeline" := block] == g.meta["pipeline" := block];
  }

  /** Finalizing a retained file again gives what finalizing the rebuilt file gives. */
  lemma RetainedFileFinalizes(
      before: Run, ms: seq<Manifest>, stage: Tree, after: Run, ns: seq<Manifest>, u: Unit, p: Path)
    requires WellFormed(before) && IsStageOf(stage, before, ms)
    requires WellFormed(after) && SameManifests(ns, FreshManifests(after, after.units))
    requires u in after.units && Unchanged(before, after, u) && p in OutputOf(after, u).files
    ensures p in stage && stage[p].Page? == OutputOf(after, u).files[p].Page?
    ensures FinalizeFile(stage[p], p, after.summaries, Flatten(ns), Flatten(ns))
      == FinalizeFile(OutputOf(after, u).files[p], p, after.summaries, Flatten(ns), Flatten(ns))
  {
    var f, g := OutputOf(before, u).files[p], OutputOf(after, u).files[p];
    PublishedUnitFile(before, ms, stage, u, p);
    ContributedHere(before, ms, u, p);
    ContributedHere(after, ns, u, p);
    var c := PageAt(Flatten(ns), p);
    if c.Some? {
      var block := BlockOf(after.summaries, Flatten(ns), c.value);
      var earlier := BlockOf(before.summaries, Flatten(ms), PageAt(Flatten(ms), p).value);
      SetPipelineTwice(f, earlier, block);
      if f != g { SameButPipelineFinalizes(f, g, block); }
    }
  }

  lemma PublishedUnitFile(run: Run, ms: seq<Manifest>, stage: Tree, u: Unit, p: Path)
    requires WellFormed(run) && stage == Stage(run, Layer(run, run.units), ms)
    requires u in run.units && p in OutputOf(run, u).files
    ensures p in stage
    ensures stage[p] == FinalizeFile(OutputOf(run, u).files[p], p, run.summaries, Flatten(ms), Flatten(ms))
  {
    LayerFileOf(run, run.units, u, p);
    UnitFilesAreStaged(run, u, p);
    CoordinatorFilesClaimed(run, ms, p);
  }

  // The two builds

  function IncrementalRequest(before: Run, ms: seq<Manifest>, stage: Tree, after: Run, dirty: set<string>): Request {
    Request(after, Some(dirty), stage, Removed(before, ms, after, dirty), Retained(ms, UnitIds(after.units), dirty))
  }

  /** What a watch cycle has to start from. */
  ghost predicate Cycle(before: Run, ms: seq<Manifest>, stage: Tree, after: Run, dirty: set<string>) {
    && WellFormed(before) && IsStageOf(stage, before, ms)
    && WellFormed(after) && CleanUnitsUnchanged(before, after, dirty)
  }

  /** A cycle whose clean units may have changed what is in their files, but nothing else. */
  ghost predicate ShapedCycle(before: Run, ms: seq<Manifest>, stage: Tree, after: Run, dirty: set<string>) {
    && WellFormed(before) && IsStageOf(stage, before, ms)
    && WellFormed(after) && CleanUnitsKeepShape(before, after, dirty)
  }

  ghost predicate Survives(before: Run, after: Run, dirty: set<string>, u: Unit, p: Path) {
    && u in after.units && p in OutputOf(after, u).files
    && (u.id in dirty || !UnderDroppedRoot(before, after, dirty, p))
  }

  lemma BuiltFiles(after: Run, dirty: set<string>, p: Path)
    ensures p in Layer(after, Included(after.units, Some(dirty)))
      <==> exists u :: u in after.units && u.id in dirty && p in OutputOf(after, u).files
  {
    var built := Included(after.units, Some(dirty));
    LayerFiles(after, built, p);
    forall u ensures u in built <==> u in after.units && u.id in dirty { IncludedUnits(after.units, dirty, u); }
    if u :| u in after.units && u.id in dirty && p in OutputOf(after, u).files { assert u in built; }
  }

  /** The files of an incremental candidate: everything rebuilt, and what retained
      units keep outside the removed roots. */
  lemma CandidateKeys(before: Run, ms: seq<Manifest>, stage: Tree, after: Run, dirty: set<string>, p: Path)
    requires ShapedCycle(before, ms, stage, after, dirty)
    ensures p in Candidate(IncrementalRequest(before, ms, stage, after, dirty))
      <==> exists u :: Survives(before, after, dirty, u, p)
  {
    CandidateFiles(before, ms, stage, after, dirty, p);
    BuiltFiles(after, dirty, p);
    if p in Prune(stage, Removed(before, ms, after, dirty)) {
      var u :| u in after.units && u.id !in dirty && p in OutputOf(after, u).files && !UnderDroppedRoot(before, after, dirty, p);
      assert Survives(before, after, dirty, u, p);
    }
    if p in Layer(after, Included(after.units, Some(dirty))) {
      var u :| u in after.units && u.id in dirty && p in OutputOf(after, u).files;
      assert Survives(before, after, dirty, u, p);
    }
  }

  lemma BuiltFile(after: Run, dirty: set<string>, u: Unit, p: Path)
    requires WellFormed(after) && u in after.units && p in OutputOf(after, u).files
    ensures var layer := Layer(after, Included(after.units, Some(dirty)));
      if u.id in dirty then p in layer && layer[p] == OutputOf(after, u).files[p] else p !in layer
  {
    BuiltFiles(after, dirty, p);
    var built := Included(after.units, Some(dirty));
    forall v ensures v in built <==> v in after.units && v.id in dirty { IncludedUnits(after.units, dirty, v); }
    if u.id in dirty { LayerFileOf(after, built, u, p); }
  }

  lemma CandidateFile(
      before: Run, ms: seq<Manifest>, stage: Tree, after: Run, dirty: set<string>, ns: seq<Manifest>, u: Unit, p: Path)
    requires Cycle(before, ms, stage, after, dirty) && SameManifests(ns, FreshManifests(after, after.units))
    requires Survives(before, after, dirty, u, p)
    ensures var candidate := Candidate(IncrementalRequest(before, ms, stage, after, dirty));
      && p in candidate
      && candidate[p].Page? == OutputOf(after, u).files[p].Page?
      && FinalizeFile(candidate[p], p, after.summaries, Flatten(ns), Flatten(ns))
        == FinalizeFile(OutputOf(after, u).files[p], p, after.summaries, Flatten(ns), Flatten(ns))
  {
    BuiltFile(after, dirty, u, p);
    if u.id !in dirty {
      CandidateFiles(before, ms, stage, after, dirty, p);
      assert Unchanged(before, after, u);
      RetainedFileFinalizes(before, ms, stage, after, ns, u, p);
    }
  }

  ghost predicate AgreeAt(a: Tree, b: Tree, summaries: map<string, string>, pages: seq<Contribution>, p: Path) {
    && (p in a <==> p in b)
    && (p in a ==> a[p].Page? == b[p].Page?)
    && (p in a ==> FinalizeFile(a[p], p, summaries, pages, pages) == FinalizeFile(b[p], p, summaries, pages, pages))
  }

  /** When nothing retained is removed, the incremental candidate finalizes to
      what the full candidate finalizes to. */
  lemma CandidatesAgree(
      before: Run, ms: seq<Manifest>, stage: Tree, after: Run, dirty: set<string>, ns: seq<Manifest>, p: Path)
    requires Cycle(before, ms, stage, after, dirty) && SameManifests(ns, FreshManifests(after, after.units))
    requires RetainedSafe(before, after, dirty)
    ensures AgreeAt(Candidate(IncrementalRequest(before, ms, stage, after, dirty)), Layer(after, after.units),
                    after.summaries, Flatten(ns), p)
  {
    CandidateKeys(before, ms, stage, after, dirty, p);
    LayerFiles(after, after.units, p);
    if SomeWrites(after, after.units, p) {
      var u :| u in after.units && p in OutputOf(after, u).files;
      assert Survives(before, after, dirty, u, p);
      LayerFileOf(after, after.units, u, p);
      CandidateFile(before, ms, stage, after, dirty, ns, u, p);
    }
  }

  lemma AgreeingTreesFinalizeAlike(a: Tree, b: Tree, summaries: map<string, string>, pages: seq<Contribution>)
    requires forall p :: AgreeAt(a, b, summaries, pages, p)
    ensures Finalized(a, summaries, pages, pages) == Finalized(b, summaries, pages, pages)
    ensures PagesPresent(a, pages) <==> PagesPresent(b, pages)
  {
    forall p ensures p in a <==> p in b { assert AgreeAt(a, b, summaries, pages, p); }
    forall p | p in a
      ensures FinalizeFile(a[p], p, summaries, pages, pages) == FinalizeFile(b[p], p, summaries, pages, pages)
    {
      assert AgreeAt(a, b, summaries, pages, p);
    }
    forall i | 0 <= i < |pages| ensures AgreeAt(a, b, summaries, pages, pages[i].stagePath) {
    }
  }

  lemma FullBuild(run: Run)
    ensures Candidate(FullRequest(run)) == Layer(run, run.units)
    ensures LoadedManifests(FullRequest(run)) == FreshManifests(run, run.units)
    ensures StageOf(FullRequest(run)) == Stage(run, Layer(run, run.units), FreshManifests(run, run.units))
  {
    assert Prune(map[], {}) == map[];
    assert map[] + Layer(run, run.units) == Layer(run, run.units);
    assert [] + FreshManifests(run, run.units) == FreshManifests(run, run.units);
  }

  lemma SuccessIgnoresOrder(t: Tree, a: seq<Manifest>, b: seq<Manifest>)
    requires SameManifests(a, b)
    ensures PagesPresent(t, Flatten(a)) <==> PagesPresent(t, Flatten(b))
    ensures AllHaveUrls(Flatten(a)) <==> AllHaveUrls(Flatten(b))
  {
    FlattenSameMembers(a, b);
    assert forall i :: 0 <= i < |Flatten(a)| ==> Flatten(a)[i] in Flatten(b);
    assert forall i :: 0 <= i < |Flatten(b)| ==> Flatten(b)[i] in Flatten(a);
  }

  lemma CandidatesFinalizeAlike(
      before: Run, ms: seq<Manifest>, stage: Tree, after: Run, dirty: set<string>, ns: seq<Manifest>)
    requires Cycle(before, ms, stage, after, dirty) && SameManifests(ns, FreshManifests(after, after.units))
    requires RetainedSafe(before, after, dirty)
    ensures var candidate := Candidate(IncrementalRequest(before, ms, stage, after, dirty));
      && Finalized(candidate, after.summaries, Flatten(ns), Flatten(ns))
        == Finalized(Layer(after, after.units), after.summaries, Flatten(ns), Flatten(ns))
      && (PagesPresent(candidate, Flatten(ns)) <==> PagesPresent(Layer(after, after.units), Flatten(ns)))
  {
    var candidate := Candidate(IncrementalRequest(before, ms, stage, after, dirty));
    forall p ensures AgreeAt(candidate, Layer(after, after.units), after.summaries, Flatten(ns), p) {
      CandidatesAgree(before, ms, stage, after, dirty, ns, p);
    }
    AgreeingTreesFinalizeAlike(candidate, Layer(after, after.units), after.summaries, Flatten(ns));
  }

  lemma RequestManifests(before: Run, ms: seq<Manifest>, stage: Tree, after: Run, dirty: set<string>)
    ensures LoadedManifests(IncrementalRequest(before, ms, stage, after, dirty)) == IncrementalManifests(ms, after, dirty)
  {
  }

  lemma SameVerdict(inc: Request, run: Run, ns: seq<Manifest>)
    requires LoadedManifests(inc) == ns && SameManifests(ns, FreshManifests(run, run.units))
    requires PagesPresent(Candidate(inc), Flatten(ns)) <==> PagesPresent(Layer(run, run.units), Flatten(ns))
    ensures Succeeds(inc) <==> Succeeds(FullRequest(run))
  {
    FullBuild(run);
    SuccessIgnoresOrder(Layer(run, run.units), ns, FreshManifests(run, run.units));
  }

  /** With everything retained safe the incremental build succeeds exactly when
      the full build does, and publishes a stage of the current inputs. */
  lemma SafeIncrementalBuild(before: Run, ms: seq<Manifest>, stage: Tree, after: Run, dirty: set<string>)
    requires Cycle(before, ms, stage, after, dirty) && RetainedSafe(before, after, dirty)
    ensures var inc := IncrementalRequest(before, ms, stage, after, dirty);
      && (Succeeds(inc) <==> Succeeds(FullRequest(after)))
      && IsStageOf(StageOf(inc), after, LoadedManifests(inc))
  {
    var inc, ns := IncrementalRequest(before, ms, stage, after, dirty), IncrementalManifests(ms, after, dirty);
    RequestManifests(before, ms, stage, after, dirty);
    ManifestsRecombine(before, ms, after, dirty);
    CandidatesFinalizeAlike(before, ms, stage, after, dirty, ns);
    SameVerdict(inc, after, ns);
  }

  /** Two stages of one run differ at most in the order of the two manifest-order
      files, and not at all when their manifests are listed alike. */
  lemma StagesAgreeUpToOrder(run: Run, s: Tree, a: seq<Manifest>, t: Tree, b: seq<Manifest>)
    requires WellFormed(run) && IsStageOf(s, run, a) && IsStageOf(t, run, b)
    ensures SameUpToOrder(s, t)
    ensures s == t <==> a == b
  {
    FreshCoherent(run);
    SameManifestsBoth(run, a, b);
    CoordinatorFilesAgree(run, a, b);
    FinalizationIgnoresOrder(Layer(run, run.units), run.summaries, a, b);
    var rest := Finalized(Layer(run, run.units), run.summaries, Flatten(a), Flatten(a));
    OverlayKeepsOrder(rest, CoordinatorFiles(run, a), CoordinatorFiles(run, b));
    forall p ensures !(p in rest && p in CoordinatorFiles(run, a)) { UnitFileOrCoordinatorFile(run, a, p); }
    OverlayCancels(rest, CoordinatorFiles(run, a), CoordinatorFiles(run, b));
  }

  lemma SameManifestsBoth(run: Run, a: seq<Manifest>, b: seq<Manifest>)
    requires WellFormed(run)
    requires SameManifests(a, FreshManifests(run, run.units)) && SameManifests(b, FreshManifests(run, run.units))
    ensures SameManifests(a, b) && Local(a) && PathsApart(a)
  {
    FreshCoherent(run);
  }

  lemma OverlayKeepsOrder(rest: Tree, f: Tree, g: Tree)
    requires SameUpToOrder(f, g)
    ensures SameUpToOrder(rest + f, rest + g)
  {
  }

  lemma UnitFileOrCoordinatorFile(run: Run, ms: seq<Manifest>, p: Path)
    requires WellFormed(run)
    ensures !(p in Layer(run, run.units) && p in CoordinatorFiles(run, ms))
  {
    LayerFiles(run, run.units, p);
    if SomeWrites(run, run.units, p) {
      var u :| u in run.units && p in OutputOf(run, u).files;
      UnitFilesAreStaged(run, u, p);
    }
    CoordinatorFilesClaimed(run, ms, p);
  }

  lemma OverlayCancels(rest: Tree, f: Tree, g: Tree)
    requires f.Keys == g.Keys
    ensures rest + f == rest + g <==> f == g
  {
    if rest + f == rest + g {
      forall p | p in f ensures f[p] == g[p] {
        assert (rest + f)[p] == f[p] && (rest + g)[p] == g[p];
      }
    }
  }

  lemma FullBuildIsStage(run: Run)
    requires WellFormed(run)
    ensures IsStageOf(StageOf(FullRequest(run)), run, FreshManifests(run, run.units))
  {
    FullBuild(run);
    FreshDistinct(run, run.units);
  }

  /** A retained file under a removed root is missing from the incremental stage. */
  lemma UnsafeFileIsLost(before: Run, ms: seq<Manifest>, stage: Tree, after: Run, dirty: set<string>, u: Unit, p: Path)
    requires ShapedCycle(before, ms, stage, after, dirty) && u in after.units && p in OutputOf(after, u).files
    requires u.id !in dirty && UnderDroppedRoot(before, after, dirty, p)
    ensures p in StageOf(FullRequest(after)) && p !in StageOf(IncrementalRequest(before, ms, stage, after, dirty))
  {
    FullBuild(after);
    assert SomeWrites(after, after.units, p);
    LayerFiles(after, after.units, p);
    CandidateKeys(before, ms, stage, after, dirty, p);
    assert forall v :: v in after.units && p in OutputOf(after, v).files ==> v == u;
    UnitFilesAreStaged(after, u, p);
    CoordinatorFilesClaimed(after, LoadedManifests(IncrementalRequest(before, ms, stage, after, dirty)), p);
  }

  lemma SelectionLosesFile(before: Run, ms: seq<Manifest>, stage: Tree, after: Run, dirty: set<string>, u: Unit, p: Path)
    requires ShapedCycle(before, ms, stage, after, dirty) && u in after.units && p in OutputOf(after, u).files
    requires u.id !in dirty && UnderDroppedRoot(before, after, dirty, p)
    ensures p in StageOf(FullRequest(after))
    ensures p !in StageOf(SelectIncrementalBuild(after, LoadState(stage), stage, dirty))
  {
    SelectedRequest(before, ms, stage, after, dirty);
    UnsafeFileIsLost(before, ms, stage, after, dirty, u, p);
  }

  /** The cache is exact: an incremental build started from a published stage
      succeeds and equals the full build, up to manifest order, if and only if no
      retained file lies under a removed root. */
  lemma IncrementalBuildIsExact(before: Run, ms: seq<Manifest>, stage: Tree, after: Run, dirty: set<string>)
    requires Cycle(before, ms, stage, after, dirty) && Succeeds(FullRequest(after))
    ensures var inc := SelectIncrementalBuild(after, LoadState(stage), stage, dirty);
      var whole := StageOf(FullRequest(after));
      && (RetainedSafe(before, after, dirty) <==> Succeeds(inc) && SameUpToOrder(StageOf(inc), whole))
      && (StageOf(inc) == whole <==>
            RetainedSafe(before, after, dirty) && LoadedManifests(inc) == FreshManifests(after, after.units))
      && (RetainedSafe(before, after, dirty) ==> IsStageOf(StageOf(inc), after, LoadedManifests(inc)))
  {
    FullBuildIsStage(after);
    FullBuild(after);
    if after.units != [] {
      SelectedRequest(before, ms, stage, after, dirty);
      if RetainedSafe(before, after, dirty) {
        SafeIncrementalBuild(before, ms, stage, after, dirty);
        var inc := IncrementalRequest(before, ms, stage, after, dirty);
        StagesAgreeUpToOrder(after, StageOf(inc), LoadedManifests(inc), StageOf(FullRequest(after)), FreshManifests(after, after.units));
      } else {
        var u, p :| u in after.units && u.id !in dirty && p in OutputOf(after, u).files && UnderDroppedRoot(before, after, dirty, p);
        UnsafeFileIsLost(before, ms, stage, after, dirty, u, p);
      }
    } else {
      EmptySelection(after, stage, dirty);
      assert RetainedSafe(before, after, dirty);
    }
  }

  // When files change unnoticed

  ghost predicate SameRest(f: File, g: File) { f == g || SameButPipeline(f, g) }

  lemma FinalizingKeepsRest(f: File, p: Path, summaries: map<string, string>, pages: seq<Contribution>)
    ensures SameRest(FinalizeFile(f, p, summaries, pages, pages), f)
  {
    var c := PageAt(pages, p);
    if c.Some? && f.Page? {
      var block := BlockOf(summaries, pages, c.value);
      assert f.meta["pipeline" := block] - {"pipeline"} == f.meta - {"pipeline"};
    }
  }

  /** A retained file goes into the new stage as it was published, finalized again. */
  lemma RetainedFileInStage(before: Run, ms: seq<Manifest>, stage: Tree, after: Run, dirty: set<string>, u: Unit, p: Path)
    requires ShapedCycle(before, ms, stage, after, dirty) && u in after.units && u.id !in dirty
    requires p in OutputOf(after, u).files && !UnderDroppedRoot(before, after, dirty, p)
    ensures var inc := IncrementalRequest(before, ms, stage, after, dirty);
      var pages := Flatten(LoadedManifests(inc));
      p in stage && p in StageOf(inc) && StageOf(inc)[p] == FinalizeFile(stage[p], p, after.summaries, pages, pages)
  {
    CandidateFiles(before, ms, stage, after, dirty, p);
    BuiltFile(after, dirty, u, p);
    UnitFilesAreStaged(after, u, p);
    CoordinatorFilesClaimed(after, LoadedManifests(IncrementalRequest(before, ms, stage, after, dirty)), p);
  }

  lemma FullBuildFile(run: Run, u: Unit, p: Path)
    requires WellFormed(run) && u in run.units && p in OutputOf(run, u).files
    ensures var pages := Flatten(FreshManifests(run, run.units));
      p in StageOf(FullRequest(run))
      && StageOf(FullRequest(run))[p] == FinalizeFile(OutputOf(run, u).files[p], p, run.summaries, pages, pages)
  {
    FullBuild(run);
    PublishedUnitFile(run, FreshManifests(run, run.units), StageOf(FullRequest(run)), u, p);
  }

  /** Where nothing is contributed, finalization leaves the file alone. */
  lemma UncontributedFile(run: Run, ms: seq<Manifest>, u: Unit, p: Path, f: File)
    requires WellFormed(run) && SameManifests(ms, FreshManifests(run, run.units))
    requires u in run.units && p in OutputOf(run, u).files && !Contributes(OutputOf(run, u), p)
    ensures FinalizeFile(f, p, run.summaries, Flatten(ms), Flatten(ms)) == f
  {
    ContributedHere(run, ms, u, p);
  }

  lemma RestOfChain(x: File, middle: File, f: File, y: File, g: File)
    requires SameRest(x, middle) && SameRest(middle, f) && SameRest(y, g) && x == y
    ensures SameRest(f, g)
  {
  }

  lemma ContributedFileShows(
      before: Run, ms: seq<Manifest>, after: Run, ns: seq<Manifest>, f: File, g: File, p: Path)
    requires !SameRest(f, g)
    ensures var middle := FinalizeFile(f, p, before.summaries, Flatten(ms), Flatten(ms));
      var pages := Flatten(FreshManifests(after, after.units));
      FinalizeFile(middle, p, after.summaries, Flatten(ns), Flatten(ns)) != FinalizeFile(g, p, after.summaries, pages, pages)
  {
    var middle, pages := FinalizeFile(f, p, before.summaries, Flatten(ms), Flatten(ms)), Flatten(FreshManifests(after, after.units));
    var x, y := FinalizeFile(middle, p, after.summaries, Flatten(ns), Flatten(ns)), FinalizeFile(g, p, after.summaries, pages, pages);
    FinalizingKeepsRest(f, p, before.summaries, Flatten(ms));
    FinalizingKeepsRest(middle, p, after.summaries, Flatten(ns));
    FinalizingKeepsRest(g, p, after.summaries, pages);
    if x == y { RestOfChain(x, middle, f, y, g); }
  }

  lemma UncontributedFileShows(
      before: Run, ms: seq<Manifest>, stage: Tree, after: Run, dirty: set<string>, u: Unit, f: File, g: File, p: Path)
    requires ShapedCycle(before, ms, stage, after, dirty) && u in after.units && u.id !in dirty
    requires p in OutputOf(after, u).files && !Contributes(OutputOf(after, u), p) && f != g
    ensures var middle := FinalizeFile(f, p, before.summaries, Flatten(ms), Flatten(ms));
      var ns, pages := IncrementalManifests(ms, after, dirty), Flatten(FreshManifests(after, after.units));
      FinalizeFile(middle, p, after.summaries, Flatten(ns), Flatten(ns)) != FinalizeFile(g, p, after.summaries, pages, pages)
  {
    assert KeepsShape(before, after, u);
    ManifestsRecombine(before, ms, after, dirty);
    FreshDistinct(after, after.units);
    UncontributedFile(before, ms, u, p, f);
    UncontributedFile(after, IncrementalManifests(ms, after, dirty), u, p, f);
    UncontributedFile(after, FreshManifests(after, after.units), u, p, g);
  }

  /** A file of a clean unit that changed shows: the incremental stage has the old one. */
  lemma ChangedFileShows(before: Run, ms: seq<Manifest>, stage: Tree, after: Run, dirty: set<string>, u: Unit, p: Path)
    requires ShapedCycle(before, ms, stage, after, dirty) && u in after.units && u.id !in dirty
    requires p in OutputOf(after, u).files && !UnderDroppedRoot(before, after, dirty, p)
    requires p in OutputOf(before, u).files && !SameFileAt(OutputOf(before, u), OutputOf(after, u), p)
    ensures var inc := IncrementalRequest(before, ms, stage, after, dirty);
      p in StageOf(inc) && p in StageOf(FullRequest(after)) && StageOf(inc)[p] != StageOf(FullRequest(after))[p]
  {
    var f, g := OutputOf(before, u).files[p], OutputOf(after, u).files[p];
    assert KeepsShape(before, after, u);
    PublishedUnitFile(before, ms, stage, u, p);
    RetainedFileInStage(before, ms, stage, after, dirty, u, p);
    RequestManifests(before, ms, stage, after, dirty);
    FullBuildFile(after, u, p);
    if Contributes(OutputOf(after, u), p) {
      ContributedFileShows(before, ms, after, IncrementalManifests(ms, after, dirty), f, g, p);
    } else {
      UncontributedFileShows(before, ms, stage, after, dirty, u, f, g, p);
    }
  }

  lemma DifferentFile(a: Tree, b: Tree, p: Path)
    requires p in a && p in b && a[p] != b[p] && p != [] && (p[0] == "content" || p[0] == "static")
    ensures !SameUpToOrder(a, b)
  {
    assert CONTENT_INDEX[0] == "data" && UNIT_CONTRIBUTIONS[0] == "data";
  }

  lemma StaleStageDiffers(before: Run, ms: seq<Manifest>, stage: Tree, after: Run, dirty: set<string>)
    requires ShapedCycle(before, ms, stage, after, dirty) && after.units != []
    requires RetainedSafe(before, after, dirty) && !CleanUnitsUnchanged(before, after, dirty)
    ensures !SameUpToOrder(StageOf(IncrementalRequest(before, ms, stage, after, dirty)), StageOf(FullRequest(after)))
  {
    var u :| u in after.units && u.id !in dirty && !Unchanged(before, after, u);
    assert KeepsShape(before, after, u);
    var p :| p in OutputOf(before, u).files && p in OutputOf(after, u).files
      && !SameFileAt(OutputOf(before, u), OutputOf(after, u), p);
    ChangedFileShows(before, ms, stage, after, dirty, u, p);
    UnitFilesAreStaged(after, u, p);
    DifferentFile(StageOf(IncrementalRequest(before, ms, stage, after, dirty)), StageOf(FullRequest(after)), p);
  }

  /** While units keep their manifests and file names, an incremental build shows the
      full build, up to manifest order, if and only if the files of every unit left
      alone are unchanged and none of them lies under a removed root. */
  lemma StalenessIsExact(before: Run, ms: seq<Manifest>, stage: Tree, after: Run, dirty: set<string>)
    requires ShapedCycle(before, ms, stage, after, dirty) && Succeeds(FullRequest(after))
    ensures SameUpToOrder(StageOf(SelectIncrementalBuild(after, LoadState(stage), stage, dirty)), StageOf(FullRequest(after)))
      <==> CleanUnitsUnchanged(before, after, dirty) && RetainedSafe(before, after, dirty)
  {
    if after.units == [] {
      EmptySelection(after, stage, dirty);
    } else {
      SelectedRequest(before, ms, stage, after, dirty);
      if !RetainedSafe(before, after, dirty) {
        var u, p :| u in after.units && u.id !in dirty && p in OutputOf(after, u).files && UnderDroppedRoot(before, after, dirty, p);
        UnsafeFileIsLost(before, ms, stage, after, dirty, u, p);
      } else if CleanUnitsUnchanged(before, after, dirty) {
        IncrementalBuildIsExact(before, ms, stage, after, dirty);
      } else {
        StaleStageDiffers(before, ms, stage, after, dirty);
      }
    }
  }

  lemma EmptySelection(run: Run, stage: Tree, dirty: set<string>)
    requires run.units == []
    ensures SelectIncrementalBuild(run, LoadState(stage), stage, dirty) == FullRequest(run)
    ensures SameUpToOrder(StageOf(FullRequest(run)), StageOf(FullRequest(run)))
  {
    assert UnitIds(run.units) == {};
  }
}
