/** What the metadata of a finished stage says (staging/incremental_metadata.py,
    staging/aggregates.py). */
module StageMetadata {
  import opened Options
  import opened Ownership
  import opened Paths
  import opened Sorting
  import opened Staging
  import opened Manifests
  import opened IncrementalBuild
  import opened IncrementalRefinement

  // The ownership map

  /** The text columns by which claims are ordered. */
  function Columns(c: OutputClaim): seq<string> {
    [Join(c.path), if c.isDirectory then "directory" else "file", c.owner, if c.unitId.Some? then c.unitId.value else ""]
  }

  /** The first column in which they differ comes earlier. */
  predicate ColumnsLe(a: seq<string>, b: seq<string>)
    requires |a| == |b|
  {
    a == b || exists k :: 0 <= k < |a| && a[..k] == b[..k] && a[k] != b[k] && StringLe(a[k], b[k])
  }

  lemma ClaimOrder(a: OutputClaim, b: OutputClaim)
    ensures OutputClaimLe(a, b) <==> ColumnsLe(Columns(a), Columns(b))
  {
    var x, y := Columns(a), Columns(b);
    KindsDiffer();
    assert x[..0] == y[..0];
    if x[0] == y[0] {
      assert x[..1] == [x[0]] && y[..1] == [y[0]];
      if x[1] == y[1] {
        assert x[..2] == [x[0], x[1]] && y[..2] == [y[0], y[1]];
        if x[2] == y[2] { assert x[..3] == [x[0], x[1], x[2]] && y[..3] == [y[0], y[1], y[2]]; }
      }
    }
    StringLeTotal(x[3], x[3]);
  }

  lemma KindsDiffer()
    ensures "directory" != "file" && StringLe("directory", "file") && !StringLe("file", "directory")
  {
    assert "directory"[0] == 'd' && "file"[0] == 'f';
  }

  lemma ColumnsTransitive(a: seq<string>, b: seq<string>, c: seq<string>)
    requires |a| == |b| == |c| && ColumnsLe(a, b) && ColumnsLe(b, c)
    ensures ColumnsLe(a, c)
  {
    if a != b && b != c {
      var k :| 0 <= k < |a| && a[..k] == b[..k] && a[k] != b[k] && StringLe(a[k], b[k]);
      var m :| 0 <= m < |b| && b[..m] == c[..m] && b[m] != c[m] && StringLe(b[m], c[m]);
      var n := if k < m then k else m;
      assert a[..n] == a[..k][..n] && b[..n] == b[..k][..n] && b[..n] == b[..m][..n] && c[..n] == c[..m][..n];
      if k < m {
        assert b[..m][k] == c[..m][k];
      } else if m < k {
        assert a[..k][m] == b[..k][m];
      } else {
        StringLeTransitive(a[k], b[k], c[k]);
        if a[k] == c[k] { StringLeAntisymmetric(a[k], b[k]); }
      }
    }
  }

  lemma {:induction false} ColumnsTotal(a: seq<string>, b: seq<string>, k: nat)
    requires |a| == |b| && k <= |a| && a[..k] == b[..k]
    ensures ColumnsLe(a, b) || ColumnsLe(b, a)
    decreases |a| - k
  {
    if k == |a| {
      assert a == a[..k] == b[..k] == b;
    } else if a[k] == b[k] {
      assert a[..k + 1] == a[..k] + [a[k]] && b[..k + 1] == b[..k] + [b[k]];
      ColumnsTotal(a, b, k + 1);
    } else {
      StringLeTotal(a[k], b[k]);
    }
  }

  lemma ClaimOrderIsTotalPreorder()
    ensures TotalPreorder(OutputClaimLe)
  {
    forall a, b ensures OutputClaimLe(a, b) || OutputClaimLe(b, a) {
      ClaimOrder(a, b);
      ClaimOrder(b, a);
      ColumnsTotal(Columns(a), Columns(b), 0);
    }
    forall a, b, c | OutputClaimLe(a, b) && OutputClaimLe(b, c) ensures OutputClaimLe(a, c) {
      ClaimOrder(a, b);
      ClaimOrder(b, c);
      ClaimOrder(a, c);
      ColumnsTransitive(Columns(a), Columns(b), Columns(c));
    }
  }

  /** The map lists its claims in the order of their columns. */
  lemma ClaimsAreOrdered(units: seq<Unit>, written: set<Path>, i: nat, j: nat)
    requires i < j < |OwnershipMap(units, written)|
    ensures ColumnsLe(Columns(OwnershipMap(units, written)[i]), Columns(OwnershipMap(units, written)[j]))
  {
    ClaimOrderIsTotalPreorder();
    SortIsSorted(UnitClaims(units) + CoordinatorClaims(CoordinatorPaths(written)), OutputClaimLe);
    ClaimOrder(OwnershipMap(units, written)[i], OwnershipMap(units, written)[j]);
  }

  // The dependency map and the manifest

  lemma {:induction false} IdsListed(units: seq<Unit>)
    ensures |IdsOf(units)| == |units| && forall i :: 0 <= i < |units| ==> IdsOf(units)[i] == units[i].id
  {
    if units != [] { IdsListed(units[..|units| - 1]); }
  }

  predicate ListedBefore(paths: seq<Path>, p: Path, q: Path) {
    exists x, y :: 0 <= x < y < |paths| && paths[x] == p && paths[y] == q
  }

  lemma {:induction false} PresentInOrder(paths: seq<Path>, written: set<Path>)
    ensures forall i, j :: 0 <= i < j < |Present(paths, written)| ==> ListedBefore(paths, Present(paths, written)[i], Present(paths, written)[j])
  {
    if paths != [] {
      var front, last := paths[..|paths| - 1], paths[|paths| - 1];
      PresentInOrder(front, written);
      var all := Present(paths, written);
      forall i, j | 0 <= i < j < |all| ensures ListedBefore(paths, all[i], all[j]) {
        PresentListed(front, written, all[i]);
        if j < |Present(front, written)| {
          var x, y :| 0 <= x < y < |front| && front[x] == all[i] && front[y] == all[j];
          assert paths[x] == all[i] && paths[y] == all[j];
        } else {
          var x :| 0 <= x < |front| && front[x] == all[i];
          assert paths[x] == all[i] && paths[|front|] == all[j];
        }
      }
    }
  }

  /** Every unit of the run, in the order of the identifiers, and the aggregates that
      were written, in their fixed order. */
  ghost predicate HoldsDependencies(f: File, run: Run, files: Tree) {
    && f.AggregateDependencies?
    && |f.unitIds| == |run.units| && (forall id :: id in f.unitIds <==> exists u :: u in run.units && u.id == id)
    && (forall i, j :: 0 <= i < j < |f.unitIds| ==> StringLe(f.unitIds[i], f.unitIds[j]))
    && (forall p :: p in f.files <==> p in SHARED_PATHS && p in files)
    && (forall i, j :: 0 <= i < j < |f.files| ==> ListedBefore(SHARED_PATHS, f.files[i], f.files[j]))
  }

  lemma DependenciesHold(run: Run, shared: Tree)
    ensures HoldsDependencies(AggregateDependencies(StableSort(IdsOf(run.units), StringLe), Present(SHARED_PATHS, shared.Keys)), run, shared)
  {
    var ids := StableSort(IdsOf(run.units), StringLe);
    IdsListed(run.units);
    StringOrderIsTotalPreorder();
    SortIsPermutation(IdsOf(run.units), StringLe);
    SortIsSorted(IdsOf(run.units), StringLe);
    forall id ensures id in ids <==> exists u :: u in run.units && u.id == id {
      if u :| u in run.units && u.id == id {
        var i :| 0 <= i < |run.units| && run.units[i] == u;
        assert IdsOf(run.units)[i] == id;
      }
    }
    forall p ensures p in Present(SHARED_PATHS, shared.Keys) <==> p in SHARED_PATHS && p in shared { PresentListed(SHARED_PATHS, shared.Keys, p); }
    PresentInOrder(SHARED_PATHS, shared.Keys);
  }

  /** The manifest names every file of the coordinator but itself. */
  ghost predicate HoldsManifest(f: File, run: Run, files: Tree) {
    && f.StageManifest? && f.stamp == run.stamp
    && forall p :: p in f.dataFiles <==> p in files && p != MANIFEST
  }

  lemma NamesApart()
    ensures OUTPUT_OWNERSHIP != UNIT_CONTRIBUTIONS && AGGREGATE_DEPENDENCIES != UNIT_CONTRIBUTIONS
    ensures OUTPUT_OWNERSHIP != AGGREGATE_DEPENDENCIES
    ensures MANIFEST != OUTPUT_OWNERSHIP && MANIFEST != AGGREGATE_DEPENDENCIES && MANIFEST != UNIT_CONTRIBUTIONS
    ensures !IsMetadata(CONTENT_INDEX)
    ensures forall p :: p in SHARED_PATHS ==> p != MANIFEST
  {
    assert UNIT_CONTRIBUTIONS[2][0] == 'u' && OUTPUT_OWNERSHIP[2][0] == 'o' && AGGREGATE_DEPENDENCIES[2][0] == 'a';
    assert |MANIFEST| == 1 && |CONTENT_INDEX| == 2;
    assert forall i :: 0 <= i < |SHARED_PATHS| ==> |SHARED_PATHS[i]| == 2;
  }

  lemma Overlaid(f: Tree, m: Tree, x: File, p: Path)
    requires p in m && p != UNIT_CONTRIBUTIONS
    ensures p in f + m + map[UNIT_CONTRIBUTIONS := x] && (f + m + map[UNIT_CONTRIBUTIONS := x])[p] == m[p]
  {
  }

  lemma MetadataOf(run: Run, shared: set<Path>)
    ensures var m := MetadataFiles(run, shared);
      && AGGREGATE_DEPENDENCIES in m && m[AGGREGATE_DEPENDENCIES] == AggregateDependencies(StableSort(IdsOf(run.units), StringLe), Present(SHARED_PATHS, shared))
      && MANIFEST in m && m[MANIFEST] == StageManifest(DataFiles(shared), run.stamp)
  {
    NamesApart();
  }

  lemma FilesNamed(run: Run, ms: seq<Manifest>, p: Path)
    requires PlanFilesApart(run)
    ensures p in DataFiles(SharedFiles(run, Flatten(ms)).Keys) <==> p in CoordinatorFiles(run, ms) && p != MANIFEST
  {
    var shared := SharedFiles(run, Flatten(ms)).Keys;
    NamesApart();
    SharedFilesListed(run, Flatten(ms));
    PresentListed(SHARED_PATHS, shared, p);
    CoordinatorFilesWritten(run, ms, p);
  }

  lemma MetadataHolds(run: Run, ms: seq<Manifest>)
    requires PlanFilesApart(run)
    ensures var files := CoordinatorFiles(run, ms);
      && AGGREGATE_DEPENDENCIES in files && HoldsDependencies(files[AGGREGATE_DEPENDENCIES], run, SharedFiles(run, Flatten(ms)))
      && MANIFEST in files && HoldsManifest(files[MANIFEST], run, files)
  {
    var shared := SharedFiles(run, Flatten(ms));
    NamesApart();
    MetadataOf(run, shared.Keys);
    Overlaid(shared, MetadataFiles(run, shared.Keys), UnitContributions(ms), AGGREGATE_DEPENDENCIES);
    Overlaid(shared, MetadataFiles(run, shared.Keys), UnitContributions(ms), MANIFEST);
    DependenciesHold(run, shared);
    forall p ensures p in DataFiles(shared.Keys) <==> p in CoordinatorFiles(run, ms) && p != MANIFEST { FilesNamed(run, ms, p); }
  }

  lemma IndexWritten(run: Run, pages: seq<Contribution>)
    requires PlanFilesApart(run)
    ensures CONTENT_INDEX in SharedFiles(run, pages) <==> pages != []
    ensures pages != [] ==> SharedFiles(run, pages)[CONTENT_INDEX] == ContentIndex(pages)
  {
    assert TRANSLATIONS[1][0] != CONTENT_INDEX[1][0];
  }

  lemma IndexHolds(run: Run, ms: seq<Manifest>)
    requires PlanFilesApart(run)
    ensures var files := CoordinatorFiles(run, ms);
      && (CONTENT_INDEX in files <==> Flatten(ms) != [])
      && (CONTENT_INDEX in files ==> files[CONTENT_INDEX] == ContentIndex(Flatten(ms)))
  {
    var shared := SharedFiles(run, Flatten(ms));
    NamesApart();
    IndexWritten(run, Flatten(ms));
    IndexStays(shared, MetadataFiles(run, shared.Keys), UnitContributions(ms));
  }

  lemma IndexStays(f: Tree, m: Tree, x: File)
    requires CONTENT_INDEX !in m && CONTENT_INDEX != UNIT_CONTRIBUTIONS
    ensures var files := f + m + map[UNIT_CONTRIBUTIONS := x];
      (CONTENT_INDEX in files <==> CONTENT_INDEX in f) && (CONTENT_INDEX in f ==> files[CONTENT_INDEX] == f[CONTENT_INDEX])
  {
  }

  ghost predicate OutsideCoordinator(t: Tree) { forall p :: p in t ==> !InCoordinatorArea(p) }

  /** A finished stage over files of its units: its dependency map names every unit and
      every aggregate, its manifest names every file the coordinator wrote, and its
      content index has the pages of the build in order, if there are any. */
  lemma FinishedMetadata(request: Request)
    requires PlanFilesApart(request.run) && OutsideCoordinator(Candidate(request))
    ensures var run, stage, ms := request.run, StageOf(request), LoadedManifests(request);
      && AGGREGATE_DEPENDENCIES in stage && HoldsDependencies(stage[AGGREGATE_DEPENDENCIES], run, SharedFiles(run, Flatten(ms)))
      && MANIFEST in stage && HoldsManifest(stage[MANIFEST], run, CoordinatorFiles(run, ms))
      && (CONTENT_INDEX in stage <==> Flatten(ms) != [])
      && (CONTENT_INDEX in stage ==> stage[CONTENT_INDEX] == ContentIndex(Flatten(ms)))
  {
    MetadataHolds(request.run, LoadedManifests(request));
    IndexHolds(request.run, LoadedManifests(request));
    assert InCoordinatorArea(CONTENT_INDEX);
  }

  /** The stage exposes all three files an incremental build needs. */
  predicate Exposed(stage: Tree) {
    && UNIT_CONTRIBUTIONS in stage && stage[UNIT_CONTRIBUTIONS].UnitContributions?
    && OUTPUT_OWNERSHIP in stage && stage[OUTPUT_OWNERSHIP].OutputOwnership?
    && AGGREGATE_DEPENDENCIES in stage && stage[AGGREGATE_DEPENDENCIES].AggregateDependencies?
  }

  /** Without all of them, and only then or without units, every unit is built again. */
  lemma IncompleteMetadataRebuildsAll(run: Run, stage: Tree, dirty: set<string>)
    ensures SelectIncrementalBuild(run, LoadState(stage), stage, dirty).included.None? <==> !Exposed(stage) || run.units == []
    ensures !Exposed(stage) ==> SelectIncrementalBuild(run, LoadState(stage), stage, dirty) == FullRequest(run)
  {
    if run.units != [] { assert run.units[0].id in UnitIds(run.units); }
    assert run.units == [] ==> UnitIds(run.units) == {};
  }

  /** A claim is taken out of the seed when it is the coordinator's, or that of a unit
      which is gone or to be built again. */
  predicate NotRetained(c: OutputClaim, run: Run, dirty: set<string>) {
    c.owner == COORDINATOR || c.unitId.None? || c.unitId.value in dirty || forall i :: 0 <= i < |run.units| ==> run.units[i].id != c.unitId.value
  }

  /** Exactly what incremental selection removes from the seed. */
  lemma SeedRemovals(run: Run, state: State, stage: Tree, dirty: set<string>, p: Path)
    requires run.units != []
    ensures p in SelectIncrementalBuild(run, Some(state), stage, dirty).removals <==>
      (exists c :: c in state.claims && c.path == p && NotRetained(c, run, dirty))
      || (p in Entries(stage) && !Claimed(p, state.claims))
  {
    assert run.units[0].id in UnitIds(run.units);
    forall c ensures NotRetained(c, run, dirty) <==> Dropped(c, UnitIds(run.units), dirty) {
      if c.unitId.Some? && c.unitId.value in UnitIds(run.units) {
        var u :| u in run.units && u.id == c.unitId.value;
        var i :| 0 <= i < |run.units| && run.units[i] == u;
      }
    }
  }
}
