/** Incremental builds of watch mode (commands/watch.py) against full builds. */
module IncrementalBuild {
  import opened Options
  import opened Ownership
  import opened Paths
  import opened Staging
  import opened Manifests
  import Sorting

  // Selection

  datatype State = State(manifests: seq<Manifest>, claims: seq<OutputClaim>)

  /** The incremental metadata a stage exposes, if it exposes all of it. */
  function LoadState(stage: Tree): Option<State> {
    if UNIT_CONTRIBUTIONS in stage && stage[UNIT_CONTRIBUTIONS].UnitContributions?
      && OUTPUT_OWNERSHIP in stage && stage[OUTPUT_OWNERSHIP].OutputOwnership?
      && AGGREGATE_DEPENDENCIES in stage && stage[AGGREGATE_DEPENDENCIES].AggregateDependencies?
    then Some(State(stage[UNIT_CONTRIBUTIONS].manifests, stage[OUTPUT_OWNERSHIP].claims))
    else None
  }

  /** The files of a tree and the directories above them. */
  function Entries(t: Tree): set<Path> {
    set f, n | f in t && 0 < n <= |f| :: f[..n]
  }

  /** The text test of the scan for unclaimed stage paths. */
  predicate StagePathIsClaimed(path: string, claims: seq<OutputClaim>) {
    exists i :: 0 <= i < |claims| &&
      (path == Join(claims[i].path) || TextBeneath(path, Join(claims[i].path)) || TextBeneath(Join(claims[i].path), path))
  }

  predicate Claimed(p: Path, claims: seq<OutputClaim>) {
    exists i :: 0 <= i < |claims| && Comparable(claims[i].path, p)
  }

  lemma ClaimTestOnSegments(p: Path, claims: seq<OutputClaim>)
    requires Plain(p) && forall i :: 0 <= i < |claims| ==> Plain(claims[i].path)
    ensures StagePathIsClaimed(Join(p), claims) <==> Claimed(p, claims)
  {
    forall i | 0 <= i < |claims|
      ensures Comparable(claims[i].path, p) <==>
        Join(p) == Join(claims[i].path) || TextBeneath(Join(p), Join(claims[i].path)) || TextBeneath(Join(claims[i].path), Join(p))
    {
      TextPrefixIsSegmentPrefix(claims[i].path, p);
      TextPrefixIsSegmentPrefix(p, claims[i].path);
    }
  }

  function UnclaimedPaths(stage: Tree, claims: seq<OutputClaim>): set<Path> {
    set p | p in Entries(stage) && !Claimed(p, claims)
  }

  /** A claim whose output may not be retained. */
  predicate Dropped(claim: OutputClaim, current: set<string>, dirty: set<string>) {
    claim.owner == COORDINATOR || claim.unitId.None? || claim.unitId.value !in current || claim.unitId.value in dirty
  }

  function DroppedPaths(claims: seq<OutputClaim>, current: set<string>, dirty: set<string>): set<Path> {
    set claim | claim in claims && Dropped(claim, current, dirty) :: claim.path
  }

  function Retained(manifests: seq<Manifest>, current: set<string>, dirty: set<string>): seq<Manifest> {
    if manifests == [] then []
    else
      var last := manifests[|manifests| - 1];
      Retained(manifests[..|manifests| - 1], current, dirty)
      + if last.unitId in current && last.unitId !in dirty then [last] else []
  }

  function UnitIds(units: seq<Unit>): set<string> { set u | u in units :: u.id }

  function FullRequest(run: Run): Request { Request(run, None, map[], {}, []) }

  function SelectIncrementalBuild(run: Run, state: Option<State>, stage: Tree, dirty: set<string>): Request {
    var current := UnitIds(run.units);
    if state.None? || current == {} then FullRequest(run)
    else
      Request(run, Some(dirty), stage,
              DroppedPaths(state.value.claims, current, dirty) + UnclaimedPaths(stage, state.value.claims),
              Retained(state.value.manifests, current, dirty))
  }

  // What runs and stages satisfy

  ghost predicate WritesUnderRoots(run: Run, u: Unit) {
    forall p :: p in OutputOf(run, u).files ==> exists r :: r in u.Roots() && r <= p
  }

  /** A unit contributes its own files, and pages of its own component only. */
  ghost predicate OwnManifest(run: Run, u: Unit) {
    var output := OutputOf(run, u);
    output.manifest.Some? ==>
      && output.manifest.value.unitId == u.id
      && forall c :: c in output.manifest.value.pages ==>
           ComponentId(c.owner.component) == u.id && c.stagePath in output.files
  }

  ghost predicate OutputsApart(run: Run) {
    forall u, v, p :: u in run.units && v in run.units && p in OutputOf(run, u).files && p in OutputOf(run, v).files ==> u == v
  }

  ghost predicate WellFormed(run: Run) {
    && DistinctIds(run.units) && OutputsApart(run) && PlanFilesApart(run)
    && forall u :: u in run.units ==> u.owner != COORDINATOR && StagedRoots(u) && WritesUnderRoots(run, u) && OwnManifest(run, u)
  }

  /** stage is what a build of run published, its manifests in some order. */
  ghost predicate IsStageOf(stage: Tree, run: Run, manifests: seq<Manifest>) {
    && SameManifests(manifests, FreshManifests(run, run.units))
    && stage == Stage(run, Layer(run, run.units), manifests)
  }

  // Units and layers

  lemma SameIdSameUnit(units: seq<Unit>, u: Unit, v: Unit)
    requires DistinctIds(units) && u in units && v in units && u.id == v.id
    ensures u == v
  {
    var i :| 0 <= i < |units| && units[i] == u;
    var j :| 0 <= j < |units| && units[j] == v;
  }

  ghost predicate SomeWrites(run: Run, units: seq<Unit>, p: Path) {
    exists u :: u in units && p in OutputOf(run, u).files
  }

  lemma {:induction false} LayerFiles(run: Run, units: seq<Unit>, p: Path)
    ensures p in Layer(run, units) <==> SomeWrites(run, units, p)
  {
    if units != [] {
      LayerFiles(run, units[..|units| - 1], p);
      assert units == units[..|units| - 1] + [units[|units| - 1]];
    }
  }

  lemma {:induction false} LayerFileOf(run: Run, units: seq<Unit>, u: Unit, p: Path)
    requires u in units && p in OutputOf(run, u).files
    requires forall v :: v in units && p in OutputOf(run, v).files ==> v == u
    ensures p in Layer(run, units) && Layer(run, units)[p] == OutputOf(run, u).files[p]
  {
    LayerFiles(run, units, p);
    var front, last := units[..|units| - 1], units[|units| - 1];
    assert units == front + [last];
    if last != u { LayerFileOf(run, front, u, p); }
  }

  lemma {:induction false} IncludedUnits(units: seq<Unit>, ids: set<string>, u: Unit)
    ensures u in Included(units, Some(ids)) <==> u in units && u.id in ids
  {
    if units != [] {
      IncludedUnits(units[..|units| - 1], ids, u);
      assert units == units[..|units| - 1] + [units[|units| - 1]];
    }
  }

  // Manifests

  function ManifestOf(run: Run, u: Unit): Option<Manifest> {
    var m := OutputOf(run, u).manifest;
    if m.Some? then Some(Normalize(run.workspace, run.bindings, m.value)) else None
  }

  lemma {:induction false} FreshMembers(run: Run, units: seq<Unit>, m: Manifest)
    ensures m in FreshManifests(run, units) <==> exists u :: u in units && ManifestOf(run, u) == Some(m)
  {
    if units != [] {
      var front, last := units[..|units| - 1], units[|units| - 1];
      FreshMembers(run, front, m);
      assert units == front + [last] && last in units;
      var n := ManifestOf(run, last);
      assert FreshManifests(run, units) == FreshManifests(run, front) + if n.Some? then [n.value] else [];
      if u :| u in units && ManifestOf(run, u) == Some(m) { assert u in front || u == last; }
    }
  }

  lemma {:induction false} FreshDistinct(run: Run, units: seq<Unit>)
    requires DistinctIds(units) && forall u :: u in units ==> OwnManifest(run, u)
    ensures DistinctUnitIds(FreshManifests(run, units))
  {
    if units != [] {
      var front, last := units[..|units| - 1], units[|units| - 1];
      assert forall u :: u in front ==> u in units && u.id != last.id;
      assert last in units;
      FreshDistinct(run, front);
      forall m | m in FreshManifests(run, front) ensures m.unitId != last.id {
        FreshMembers(run, front, m);
        var u :| u in front && ManifestOf(run, u) == Some(m);
        assert OwnManifest(run, u);
      }
      assert OwnManifest(run, last);
      var m := ManifestOf(run, last);
      assert FreshManifests(run, units) == FreshManifests(run, front) + if m.Some? then [m.value] else [];
      if m.Some? { AppendDistinct(FreshManifests(run, front), m.value); }
    }
  }

  lemma AppendDistinct(ms: seq<Manifest>, m: Manifest)
    requires DistinctUnitIds(ms) && forall n :: n in ms ==> n.unitId != m.unitId
    ensures DistinctUnitIds(ms + [m])
  {
  }

  lemma {:induction false} IncludedDistinct(units: seq<Unit>, ids: set<string>)
    requires DistinctIds(units)
    ensures DistinctIds(Included(units, Some(ids)))
  {
    if units != [] {
      var front, last := units[..|units| - 1], units[|units| - 1];
      IncludedDistinct(front, ids);
      forall u | u in Included(front, Some(ids)) ensures u.id != last.id { IncludedUnits(front, ids, u); }
    }
  }

  lemma {:induction false} RetainedMembers(ms: seq<Manifest>, current: set<string>, dirty: set<string>, m: Manifest)
    ensures m in Retained(ms, current, dirty) <==> m in ms && m.unitId in current && m.unitId !in dirty
  {
    if ms != [] {
      RetainedMembers(ms[..|ms| - 1], current, dirty, m);
      assert ms == ms[..|ms| - 1] + [ms[|ms| - 1]];
    }
  }

  lemma {:induction false} RetainedDistinct(ms: seq<Manifest>, current: set<string>, dirty: set<string>)
    requires DistinctUnitIds(ms)
    ensures DistinctUnitIds(Retained(ms, current, dirty))
  {
    if ms != [] {
      LastIsNew(ms);
      RetainedDistinct(ms[..|ms| - 1], current, dirty);
      forall m | m in Retained(ms[..|ms| - 1], current, dirty) ensures m.unitId != ms[|ms| - 1].unitId {
        RetainedMembers(ms[..|ms| - 1], current, dirty, m);
      }
    }
  }

  lemma {:induction false} NormalizedMembers(run: Run, ms: seq<Manifest>, m: Manifest)
    ensures m in NormalizeAll(run, ms) <==> exists n :: n in ms && m == Normalize(run.workspace, run.bindings, n)
  {
    if ms != [] {
      NormalizedMembers(run, ms[..|ms| - 1], m);
      assert ms == ms[..|ms| - 1] + [ms[|ms| - 1]];
    }
  }

  lemma {:induction false} NormalizedDistinct(run: Run, ms: seq<Manifest>)
    requires DistinctUnitIds(ms)
    ensures DistinctUnitIds(NormalizeAll(run, ms))
  {
    if ms != [] {
      LastIsNew(ms);
      NormalizedDistinct(run, ms[..|ms| - 1]);
      forall m | m in NormalizeAll(run, ms[..|ms| - 1]) ensures m.unitId != ms[|ms| - 1].unitId {
        NormalizedMembers(run, ms[..|ms| - 1], m);
      }
    }
  }

  lemma {:induction false} NormalizedPages(workspace: Path, bindings: map<PageOwner, Binding>, pages: seq<Contribution>, c: Contribution)
    ensures c in NormalizePages(workspace, bindings, pages) <==>
      exists d :: d in pages && c == NormalizePage(workspace, bindings, d)
  {
    if pages != [] {
      NormalizedPages(workspace, bindings, pages[..|pages| - 1], c);
      assert pages == pages[..|pages| - 1] + [pages[|pages| - 1]];
    }
  }

  /** The manifests of a well-formed run: distinct units, own components, own files. */
  lemma FreshCoherent(run: Run)
    requires WellFormed(run)
    ensures Coherent(FreshManifests(run, run.units))
    ensures forall u, c :: u in run.units && ManifestOf(run, u).Some? && c in ManifestOf(run, u).value.pages ==>
      c.stagePath in OutputOf(run, u).files
  {
    var ms := FreshManifests(run, run.units);
    FreshDistinct(run, run.units);
    forall u, c | u in run.units && ManifestOf(run, u).Some? && c in ManifestOf(run, u).value.pages
      ensures c.stagePath in OutputOf(run, u).files && ComponentId(c.owner.component) == u.id
    {
      NormalizedPages(run.workspace, run.bindings, OutputOf(run, u).manifest.value.pages, c);
    }
    forall m, c | m in ms && c in m.pages ensures ComponentId(c.owner.component) == m.unitId {
      FreshMembers(run, run.units, m);
    }
    forall m, n, p | m in ms && n in ms && HasPageAt(m, p) && HasPageAt(n, p) ensures m.unitId == n.unitId {
      FreshMembers(run, run.units, m);
      FreshMembers(run, run.units, n);
    }
  }

  // Claims and removals

  lemma {:induction false} UnitRootsClaimed(u: Unit, roots: seq<Path>, c: OutputClaim)
    ensures c in RootClaimsOf(u, roots) <==> exists r :: r in roots && c == OutputClaim(u.owner, Some(u.id), true, r)
  {
    if roots != [] {
      var front, last := roots[..|roots| - 1], roots[|roots| - 1];
      UnitRootsClaimed(u, front, c);
      assert roots == front + [last];
      assert last in roots;
      if r :| r in roots && c == OutputClaim(u.owner, Some(u.id), true, r) { assert r in front || r == last; }
    }
  }

  ghost predicate IsUnitClaim(units: seq<Unit>, c: OutputClaim) {
    exists u :: u in units && c in RootClaimsOf(u, u.Roots())
  }

  lemma {:induction false} UnitClaimsListed(units: seq<Unit>, c: OutputClaim)
    ensures c in UnitClaims(units) <==> IsUnitClaim(units, c)
  {
    if units != [] {
      var front, last := units[..|units| - 1], units[|units| - 1];
      UnitClaimsListed(front, c);
      assert units == front + [last];
    }
  }

  lemma {:induction false} CoordinatorClaimsListed(paths: seq<Path>, c: OutputClaim)
    ensures c in CoordinatorClaims(paths) <==> c.path in paths && c == OutputClaim(COORDINATOR, None, false, c.path)
  {
    if paths != [] {
      CoordinatorClaimsListed(paths[..|paths| - 1], c);
      assert paths == paths[..|paths| - 1] + [paths[|paths| - 1]];
    }
  }

  lemma OwnershipMapListed(units: seq<Unit>, written: set<Path>, c: OutputClaim)
    ensures c in OwnershipMap(units, written) <==>
      IsUnitClaim(units, c) || (c.path in CoordinatorPaths(written) && c == OutputClaim(COORDINATOR, None, false, c.path))
  {
    var listed := UnitClaims(units) + CoordinatorClaims(CoordinatorPaths(written));
    Sorting.SortIsPermutation(listed, OutputClaimLe);
    UnitClaimsListed(units, c);
    CoordinatorClaimsListed(CoordinatorPaths(written), c);
  }

  lemma {:induction false} PresentListed(paths: seq<Path>, written: set<Path>, p: Path)
    ensures p in Present(paths, written) <==> p in paths && p in written
  {
    if paths != [] {
      PresentListed(paths[..|paths| - 1], written, p);
      assert paths == paths[..|paths| - 1] + [paths[|paths| - 1]];
    }
  }

  predicate IsMetadata(p: Path) {
    p == UNIT_CONTRIBUTIONS || p == OUTPUT_OWNERSHIP || p == AGGREGATE_DEPENDENCIES || p == MANIFEST
  }

  lemma SharedFilesListed(run: Run, pages: seq<Contribution>)
    requires PlanFilesApart(run)
    ensures forall p :: p in SharedFiles(run, pages) ==> p in SHARED_PATHS
  {
    assert TRANSLATIONS == SHARED_PATHS[7] && CONTENT_INDEX == SHARED_PATHS[11];
  }

  lemma CoordinatorFilesWritten(run: Run, ms: seq<Manifest>, p: Path)
    ensures p in CoordinatorFiles(run, ms) <==> p in SharedFiles(run, Flatten(ms)) || IsMetadata(p)
  {
  }

  /** The coordinator claims exactly the files it writes, none of them in a unit root. */
  lemma CoordinatorFilesClaimed(run: Run, ms: seq<Manifest>, p: Path)
    requires PlanFilesApart(run)
    ensures p in CoordinatorFiles(run, ms) <==> p in CoordinatorPaths(SharedFiles(run, Flatten(ms)).Keys)
    ensures p in CoordinatorFiles(run, ms) ==> InCoordinatorArea(p)
  {
    var shared := SharedFiles(run, Flatten(ms)).Keys;
    SharedFilesListed(run, Flatten(ms));
    CoordinatorFilesWritten(run, ms, p);
    PresentListed(SHARED_PATHS, shared, p);
    assert p in CoordinatorPaths(shared) <==> p in Present(SHARED_PATHS, shared) || IsMetadata(p);
    SharedPathsAreData(p);
  }

  predicate InCoordinatorArea(p: Path) { p != [] && (p[0] == "data" || p[0] == "manifest.json") }

  lemma SharedPathsAreData(p: Path)
    ensures p in SHARED_PATHS ==> InCoordinatorArea(p)
    ensures InCoordinatorArea(UNIT_CONTRIBUTIONS) && InCoordinatorArea(OUTPUT_OWNERSHIP)
    ensures InCoordinatorArea(AGGREGATE_DEPENDENCIES) && InCoordinatorArea(MANIFEST)
  {
    assert forall i :: 0 <= i < |SHARED_PATHS| ==> SHARED_PATHS[i] != [] && SHARED_PATHS[i][0] == "data";
  }
}
