/** Watch sessions whose inputs go on changing while they run (commands/watch.py,
    commands/watch_events.py): each unit in the visible stage is as it was when it was
    last rebuilt, and once every edit has been told the stage is the full build. */
module WatchConvergence {
  import opened Options
  import opened Ownership
  import opened Paths
  import opened Plan
  import opened Staging
  import opened Manifests
  import opened DirtyPaths
  import opened IncrementalBuild
  import opened IncrementalRefinement
  import opened IncrementalSafety
  import opened StagePublication
  import opened WatchRun
  import opened WatchEdits
  import Handoff = WatchHandoff

  // Runs that agree on their units

  /** b differs from a at most in the outputs of other units. */
  ghost predicate Alike(a: Run, b: Run, units: seq<Unit>) {
    b == a.(outputs := b.outputs) && forall u :: u in units ==> OutputOf(a, u) == OutputOf(b, u)
  }

  lemma {:induction false} AlikeUnits(a: Run, b: Run, units: seq<Unit>)
    requires Alike(a, b, units)
    ensures Layer(a, units) == Layer(b, units) && FreshManifests(a, units) == FreshManifests(b, units)
  {
    if units != [] {
      assert units[|units| - 1] in units;
      AlikeUnits(a, b, units[..|units| - 1]);
    }
  }

  lemma AlikeStage(a: Run, b: Run, t: Tree, ms: seq<Manifest>)
    requires b == a.(outputs := b.outputs)
    ensures Stage(a, t, ms) == Stage(b, t, ms)
  {
  }

  lemma {:induction false} AlikeNormalized(a: Run, b: Run, ms: seq<Manifest>)
    requires b == a.(outputs := b.outputs)
    ensures NormalizeAll(a, ms) == NormalizeAll(b, ms)
  {
    if ms != [] { AlikeNormalized(a, b, ms[..|ms| - 1]); }
  }

  /** Requests that run units alike build alike. */
  lemma AlikeRequests(a: Request, b: Request)
    requires b == a.(run := b.run) && Alike(a.run, b.run, Included(a.run.units, a.included))
    ensures StageOf(a) == StageOf(b) && (Succeeds(a) <==> Succeeds(b))
  {
    AlikeUnits(a.run, b.run, Included(a.run.units, a.included));
    AlikeNormalized(a.run, b.run, a.retained);
    AlikeStage(a.run, b.run, Staging.Candidate(a), LoadedManifests(a));
  }

  lemma AlikeSelections(a: Run, b: Run, state: State, stage: Tree, dirty: set<string>)
    requires b == a.(outputs := b.outputs) && forall u :: u in a.units && u.id in dirty ==> OutputOf(a, u) == OutputOf(b, u)
    ensures var x, y := SelectIncrementalBuild(a, Some(state), stage, dirty), SelectIncrementalBuild(b, Some(state), stage, dirty);
      StageOf(x) == StageOf(y) && (Succeeds(x) <==> Succeeds(y)) && x.included == y.included
  {
    var x, y := SelectIncrementalBuild(a, Some(state), stage, dirty), SelectIncrementalBuild(b, Some(state), stage, dirty);
    forall u | u in Included(a.units, x.included) ensures OutputOf(a, u) == OutputOf(b, u) {
      if a.units != [] {
        assert a.units[0].id in UnitIds(a.units);
        IncludedUnits(a.units, dirty, u);
      }
    }
    AlikeRequests(x, y);
  }

  lemma AlikeTrust(s: Session, a: Run, b: Run)
    requires Alike(a, b, a.units) && Trustworthy(s, a)
    ensures Trustworthy(s, b)
  {
    var ms :| IsStageOf(s.stage.value, a, ms);
    AlikeUnits(a, b, a.units);
    AlikeStage(a, b, Layer(a, a.units), ms);
    assert IsStageOf(s.stage.value, b, ms);
  }

  // A world that is edited

  /** Paths edited one after the other, and what a scan after the first t edits reads;
      the plan and where it came from stay the same. */
  datatype World = World(plan: BuildPlan, layout: Layout, edits: seq<Path>, runs: seq<Run>)

  function Ids(w: World): set<string> { UnitIds(PlannedUnits(w.plan)) }

  /** Pages come from inside the workspace. */
  ghost predicate PagesInWorkspace(run: Run, u: Unit) {
    OutputOf(run, u).manifest.Some? ==> forall c :: c in OutputOf(run, u).manifest.value.pages ==>
      c.source.AbsoluteSource? && run.workspace < c.source.path && ".." !in c.source.path
  }

  ghost predicate SameSetting(a: Run, b: Run) { a.units == b.units && a.workspace == b.workspace && a.bindings == b.bindings }

  /** Two units never write the same file, whenever they are run. */
  ghost predicate NeverClash(w: World) {
    forall t, m, u, v :: 0 <= t < |w.runs| && 0 <= m < |w.runs| && u in PlannedUnits(w.plan) && v in PlannedUnits(w.plan) ==>
      FilesApart(OutputOf(w.runs[t], u), OutputOf(w.runs[m], v), u, v)
  }

  ghost predicate FilesApart(a: UnitOutput, b: UnitOutput, u: Unit, v: Unit) {
    forall p :: p in a.files && p in b.files ==> u == v
  }

  ghost predicate RunOf(w: World, run: Run) {
    && w.runs != [] && WellFormed(run) && run.units == PlannedUnits(w.plan) && SameSetting(w.runs[0], run)
    && forall u :: u in run.units ==> PagesInWorkspace(run, u)
  }

  /** An edit changes only units it feeds. */
  ghost predicate FedOrSame(w: World, t: nat, u: Unit)
    requires t < |w.edits| && |w.runs| == |w.edits| + 1
  {
    Feeds(w.layout, w.plan, u.id, w.edits[t]) || OutputOf(w.runs[t], u) == OutputOf(w.runs[t + 1], u)
  }

  ghost predicate Edited(w: World, fold: char -> string) {
    && |w.runs| == |w.edits| + 1 && Validated(PlannedUnits(w.plan), w.plan, fold)
    && InputsApart(w.layout, w.plan, Ids(w)) && NeverClash(w)
    && (forall t :: 0 <= t < |w.runs| ==> RunOf(w, w.runs[t]))
    && (forall t, u :: 0 <= t < |w.edits| && u in PlannedUnits(w.plan) ==> FedOrSame(w, t, u))
  }

  // What is visible after some scans

  function DirtyOf(w: World, scan: Handoff.Scan): set<string> { DirtyUnits(w.layout, w.plan, Ids(w), scan.dirty) }

  /** For each unit, the number of edits made when it was last rebuilt. */
  function BuiltAt(w: World, scans: seq<Handoff.Scan>): map<string, nat> {
    if scans == [] then map[]
    else
      var scan := scans[|scans| - 1];
      BuiltAt(w, scans[..|scans| - 1]) + map id | id in DirtyOf(w, scan) :: scan.start
  }

  function OutputAt(w: World, t: nat, id: string): UnitOutput {
    if t < |w.runs| && id in w.runs[t].outputs then w.runs[t].outputs[id] else UnitOutput(map[], None)
  }

  /** The last run, with every unit as it was when it was last rebuilt. */
  function Mixture(w: World, scans: seq<Handoff.Scan>): Run
    requires scans != [] && scans[|scans| - 1].start < |w.runs|
  {
    var built := BuiltAt(w, scans);
    w.runs[scans[|scans| - 1].start].(outputs := map id | id in built :: OutputAt(w, built[id], id))
  }

  /** Scans in order; the first looks at everything, each dirty path lies where the
      watcher looks, and the nested site roots are dirty together. */
  ghost predicate Scans(w: World, scans: seq<Handoff.Scan>) {
    && (forall k :: 0 <= k < |scans| ==> ScanOf(w, scans[k]))
    && (forall j, k :: 0 <= j < k < |scans| ==> scans[j].start <= scans[k].start)
    && (scans != [] ==> scans[0].dirty == [])
  }

  ghost predicate ScanOf(w: World, scan: Handoff.Scan) {
    && scan.start < |w.runs| && (forall p :: p in scan.dirty ==> InScope(w.layout, w.plan, p))
    && (SITE_ASSETS in PlannedUnits(w.plan) && VENDOR_ASSETS in PlannedUnits(w.plan) ==>
          (SITE_ASSETS.id in DirtyOf(w, scan) <==> VENDOR_ASSETS.id in DirtyOf(w, scan)))
  }

  lemma ScansPrefix(w: World, scans: seq<Handoff.Scan>)
    requires Scans(w, scans) && scans != []
    ensures Scans(w, scans[..|scans| - 1]) && ScanOf(w, scans[|scans| - 1])
  {
  }

  /** The time recorded for a unit is that of the last scan that found it dirty. */
  ghost predicate LastDirty(w: World, scans: seq<Handoff.Scan>, id: string, j: nat)
    requires j < |scans|
  {
    && id in DirtyOf(w, scans[j]) && id in BuiltAt(w, scans) && BuiltAt(w, scans)[id] == scans[j].start
    && forall m :: j < m < |scans| ==> id !in DirtyOf(w, scans[m])
  }

  lemma {:induction false} BuiltAtLastDirty(w: World, scans: seq<Handoff.Scan>, id: string)
    requires Scans(w, scans) && scans != [] && id in Ids(w)
    ensures exists j :: 0 <= j < |scans| && LastDirty(w, scans, id, j)
  {
    var front, last := scans[..|scans| - 1], |scans| - 1;
    FullScan(w, scans[0]);
    if id in DirtyOf(w, scans[last]) {
      assert LastDirty(w, scans, id, last);
    } else {
      ScansPrefix(w, scans);
      BuiltAtLastDirty(w, front, id);
      var j :| 0 <= j < |front| && LastDirty(w, front, id, j);
      LaterScan(w, scans, id, j);
    }
  }

  lemma FullScan(w: World, scan: Handoff.Scan)
    requires scan.dirty == []
    ensures DirtyOf(w, scan) == Ids(w)
  {
  }

  lemma LaterScan(w: World, scans: seq<Handoff.Scan>, id: string, j: nat)
    requires j < |scans| - 1 && LastDirty(w, scans[..|scans| - 1], id, j) && id !in DirtyOf(w, scans[|scans| - 1])
    ensures LastDirty(w, scans, id, j)
  {
    var front := scans[..|scans| - 1];
    forall m | j < m < |scans| ensures id !in DirtyOf(w, scans[m]) {
      if m < |front| { assert front[m] == scans[m]; }
    }
  }

  lemma MixtureOutput(w: World, scans: seq<Handoff.Scan>, u: Unit)
    requires Scans(w, scans) && scans != [] && u in PlannedUnits(w.plan)
    ensures exists j :: 0 <= j < |scans| && LastDirty(w, scans, u.id, j) && OutputOf(Mixture(w, scans), u) == OutputOf(w.runs[scans[j].start], u)
  {
    assert u.id in Ids(w);
    BuiltAtLastDirty(w, scans, u.id);
    var j :| 0 <= j < |scans| && LastDirty(w, scans, u.id, j);
    assert ScanOf(w, scans[j]);
  }

  /** Every unit of the mixture is as in some run. */
  lemma MixtureIsRun(w: World, scans: seq<Handoff.Scan>, fold: char -> string)
    requires Edited(w, fold) && Scans(w, scans) && scans != []
    ensures RunOf(w, Mixture(w, scans))
  {
    var mixture, last := Mixture(w, scans), scans[|scans| - 1];
    assert ScanOf(w, last) && RunOf(w, w.runs[last.start]);
    forall u | u in mixture.units ensures exists t :: 0 <= t < |w.runs| && OutputOf(mixture, u) == OutputOf(w.runs[t], u) {
      MixtureOutput(w, scans, u);
      var j :| 0 <= j < |scans| && LastDirty(w, scans, u.id, j) && OutputOf(mixture, u) == OutputOf(w.runs[scans[j].start], u);
      assert ScanOf(w, scans[j]);
    }
    AssembledRun(w, mixture, w.runs[last.start]);
  }

  lemma AssembledRun(w: World, mixture: Run, last: Run)
    requires NeverClash(w) && (forall t :: 0 <= t < |w.runs| ==> RunOf(w, w.runs[t])) && |w.runs| > 0
    requires RunOf(w, last) && mixture == last.(outputs := mixture.outputs)
    requires forall u :: u in mixture.units ==> exists t :: 0 <= t < |w.runs| && OutputOf(mixture, u) == OutputOf(w.runs[t], u)
    ensures RunOf(w, mixture)
  {
    forall u | u in mixture.units ensures WritesUnderRoots(mixture, u) && OwnManifest(mixture, u) && PagesInWorkspace(mixture, u) {
      var t :| 0 <= t < |w.runs| && OutputOf(mixture, u) == OutputOf(w.runs[t], u);
      assert RunOf(w, w.runs[t]);
      assert WritesUnderRoots(w.runs[t], u) && OwnManifest(w.runs[t], u) && PagesInWorkspace(w.runs[t], u);
    }
    AssembledApart(w, mixture);
  }

  lemma AssembledApart(w: World, mixture: Run)
    requires NeverClash(w) && mixture.units == PlannedUnits(w.plan)
    requires forall u :: u in mixture.units ==> exists t :: 0 <= t < |w.runs| && OutputOf(mixture, u) == OutputOf(w.runs[t], u)
    ensures OutputsApart(mixture)
  {
    forall u, v | u in mixture.units && v in mixture.units ensures FilesApart(OutputOf(mixture, u), OutputOf(mixture, v), u, v) {
      var t :| 0 <= t < |w.runs| && OutputOf(mixture, u) == OutputOf(w.runs[t], u);
      var m :| 0 <= m < |w.runs| && OutputOf(mixture, v) == OutputOf(w.runs[m], v);
    }
    forall u, v, p | u in mixture.units && v in mixture.units && p in OutputOf(mixture, u).files && p in OutputOf(mixture, v).files
      ensures u == v
    {
      assert FilesApart(OutputOf(mixture, u), OutputOf(mixture, v), u, v);
    }
  }

  // One cycle

  /** The cycle reads what the scan reads and is told of its dirty paths. */
  ghost predicate Performs(w: World, scan: Handoff.Scan, c: CycleInput)
    requires scan.start < |w.runs|
  {
    c.inputs == Inputs(w.plan, w.layout, w.runs[scan.start]) && c.dirtyPaths == scan.dirty
  }

  lemma MixtureKeeps(w: World, scans: seq<Handoff.Scan>, u: Unit)
    requires Scans(w, scans) && |scans| > 1 && u in PlannedUnits(w.plan)
    requires u.id !in DirtyOf(w, scans[|scans| - 1]) && ScanOf(w, scans[|scans| - 1]) && ScanOf(w, scans[..|scans| - 1][|scans| - 2])
    ensures OutputOf(Mixture(w, scans), u) == OutputOf(Mixture(w, scans[..|scans| - 1]), u)
  {
    assert u.id in Ids(w);
    ScansPrefix(w, scans);
    BuiltAtLastDirty(w, scans[..|scans| - 1], u.id);
  }

  lemma MixtureRebuilds(w: World, scans: seq<Handoff.Scan>, u: Unit)
    requires scans != [] && ScanOf(w, scans[|scans| - 1]) && u.id in DirtyOf(w, scans[|scans| - 1])
    ensures OutputOf(Mixture(w, scans), u) == OutputOf(w.runs[scans[|scans| - 1].start], u)
  {
  }

  lemma KeptUnit(before: Run, after: Run, u: Unit)
    requires u in before.units && OutputOf(before, u) == OutputOf(after, u) && SameSetting(before, after) && PagesInWorkspace(after, u)
    ensures Unchanged(before, after, u)
  {
    WorkspaceManifestsAreStable(before, after, u);
  }

  /** The mixture changes only in the units the scan finds dirty, and keeps the others safely. */
  lemma MixtureIsCovered(w: World, scans: seq<Handoff.Scan>, fold: char -> string)
    requires Edited(w, fold) && Scans(w, scans) && |scans| > 1
    ensures ScanOf(w, scans[|scans| - 1]) && ScanOf(w, scans[..|scans| - 1][|scans| - 2])
    ensures var before, after, dirty := Mixture(w, scans[..|scans| - 1]), Mixture(w, scans), DirtyOf(w, scans[|scans| - 1]);
      WellFormed(after) && CleanUnitsUnchanged(before, after, dirty) && RetainedSafe(before, after, dirty)
  {
    var front, last := scans[..|scans| - 1], scans[|scans| - 1];
    ScansPrefix(w, scans);
    assert ScanOf(w, front[|scans| - 2]);
    MixtureIsRun(w, front, fold);
    MixtureIsRun(w, scans, fold);
    var before, after, dirty := Mixture(w, front), Mixture(w, scans), DirtyOf(w, last);
    forall u | u in after.units && u.id !in dirty ensures Unchanged(before, after, u) {
      MixtureKeeps(w, scans, u);
      KeptUnit(before, after, u);
    }
    ValidatedPlansAreSafe(before, after, dirty, w.plan, fold);
  }

  function With(c: CycleInput, run: Run): CycleInput { c.(inputs := c.inputs.(run := run)) }

  /** A cycle does to the session what it would do if it read the mixture. */
  lemma SameStep(s: Session, c: CycleInput, run: Run)
    requires s.trusted.Some? && run == c.inputs.run.(outputs := run.outputs)
    requires forall u :: u in run.units && u.id in Dirty(c) ==> OutputOf(c.inputs.run, u) == OutputOf(run, u)
    ensures Dirty(With(c, run)) == Dirty(c) && (Succeeded(s, With(c, run)) <==> Succeeded(s, c))
    ensures AfterCycle(s, With(c, run)) == AfterCycle(s, c)
  {
    AlikeSelections(c.inputs.run, run, s.trusted.value, SeedOf(s), Dirty(c));
    SameBuild(s, c, With(c, run));
  }

  lemma SameBuild(s: Session, c: CycleInput, d: CycleInput)
    requires d == c.(inputs := d.inputs) && StageOf(RequestOf(s, c)) == StageOf(RequestOf(s, d))
    requires (Succeeds(RequestOf(s, c)) <==> Succeeds(RequestOf(s, d))) && RequestOf(s, c).included == RequestOf(s, d).included
    ensures (Succeeded(s, c) <==> Succeeded(s, d)) && AfterCycle(s, c) == AfterCycle(s, d)
  {
  }

  lemma MixedCycle(s: Session, built: Run, c: CycleInput, run: Run)
    requires WellFormed(built) && Trustworthy(s, built) && run == c.inputs.run.(outputs := run.outputs)
    requires forall u :: u in run.units && u.id in Dirty(c) ==> OutputOf(c.inputs.run, u) == OutputOf(run, u)
    requires WellFormed(run) && CleanUnitsUnchanged(built, run, Dirty(c)) && RetainedSafe(built, run, Dirty(c))
    requires Succeeded(s, c)
    ensures Trustworthy(AfterCycle(s, c), run)
  {
    var ms :| IsStageOf(s.stage.value, built, ms);
    PublishedState(built, Layer(built, built.units), ms);
    SameStep(s, c, run);
    CycleIsSafe(s, built, With(c, run));
  }

  lemma NextMixture(w: World, scans: seq<Handoff.Scan>, s: Session, c: CycleInput, fold: char -> string)
    requires Edited(w, fold) && Scans(w, scans) && |scans| > 1 && ScanOf(w, scans[|scans| - 1]) && ScanOf(w, scans[..|scans| - 1][|scans| - 2])
    requires Trustworthy(s, Mixture(w, scans[..|scans| - 1])) && Performs(w, scans[|scans| - 1], c) && Succeeded(s, c)
    ensures Trustworthy(AfterCycle(s, c), Mixture(w, scans))
  {
    var front, last := scans[..|scans| - 1], scans[|scans| - 1];
    ScansPrefix(w, scans);
    MixtureIsRun(w, front, fold);
    MixtureIsCovered(w, scans, fold);
    assert RunOf(w, w.runs[last.start]);
    assert Dirty(c) == DirtyOf(w, last);
    forall u | u in Mixture(w, scans).units && u.id in Dirty(c) ensures OutputOf(c.inputs.run, u) == OutputOf(Mixture(w, scans), u) {
      MixtureRebuilds(w, scans, u);
    }
    MixedCycle(s, Mixture(w, front), c, Mixture(w, scans));
  }

  lemma FirstMixture(w: World, scans: seq<Handoff.Scan>, s: Session, c: CycleInput, fold: char -> string)
    requires Edited(w, fold) && Scans(w, scans) && |scans| == 1 && ScanOf(w, scans[0])
    requires NoFileAboveClaims(s) && Performs(w, scans[0], c) && Succeeded(s, c)
    ensures Trustworthy(AfterCycle(s, c), Mixture(w, scans))
  {
    var run := w.runs[scans[0].start];
    assert RunOf(w, run);
    SessionStart(s, c);
    FirstRun(w, scans);
    AlikeTrust(AfterCycle(s, c), run, Mixture(w, scans));
  }

  lemma FirstRun(w: World, scans: seq<Handoff.Scan>)
    requires Scans(w, scans) && |scans| == 1 && ScanOf(w, scans[0]) && RunOf(w, w.runs[scans[0].start])
    ensures Alike(w.runs[scans[0].start], Mixture(w, scans), w.runs[scans[0].start].units)
  {
    FullScan(w, scans[0]);
    forall u | u in PlannedUnits(w.plan) ensures OutputOf(w.runs[scans[0].start], u) == OutputOf(Mixture(w, scans), u) {
      assert u.id in Ids(w);
      MixtureRebuilds(w, scans, u);
    }
  }

  // Whole sessions

  /** Cycles that perform the scans one after the other, and all succeed. */
  ghost predicate AllPerformed(w: World, scans: seq<Handoff.Scan>, s: Session, cycles: seq<CycleInput>) {
    |cycles| == |scans| && forall k :: 0 <= k < |scans| ==> PerformedAt(w, scans, s, cycles, k)
  }

  ghost predicate PerformedAt(w: World, scans: seq<Handoff.Scan>, s: Session, cycles: seq<CycleInput>, k: nat)
    requires k < |scans| == |cycles|
  {
    && scans[k].start < |w.runs| && Performs(w, scans[k], cycles[k])
    && Succeeded(AfterRun(s, cycles[..k]), cycles[k])
  }

  lemma PerformedInPrefix(w: World, scans: seq<Handoff.Scan>, s: Session, cycles: seq<CycleInput>, n: nat, k: nat)
    requires k < n <= |scans| == |cycles| && PerformedAt(w, scans, s, cycles, k)
    ensures PerformedAt(w, scans[..n], s, cycles[..n], k)
  {
    assert cycles[..n][..k] == cycles[..k];
  }

  lemma PerformedPrefix(w: World, scans: seq<Handoff.Scan>, s: Session, cycles: seq<CycleInput>)
    requires AllPerformed(w, scans, s, cycles) && scans != []
    ensures var n := |scans| - 1; AllPerformed(w, scans[..n], s, cycles[..n]) && PerformedAt(w, scans, s, cycles, n)
  {
    var n := |scans| - 1;
    var front, before := scans[..n], cycles[..n];
    forall k | 0 <= k < n ensures PerformedAt(w, front, s, before, k) { PerformedInPrefix(w, scans, s, cycles, n, k); }
  }

  /** After every scan the visible stage is a stage of the mixture: each unit as it was
      when it was last rebuilt, everything else as the last scan read it. */
  lemma {:induction false} VisibleStageIsMixture(w: World, scans: seq<Handoff.Scan>, s: Session, cycles: seq<CycleInput>, fold: char -> string)
    requires Edited(w, fold) && Scans(w, scans) && scans != [] && ScanOf(w, scans[|scans| - 1])
    requires NoFileAboveClaims(s) && AllPerformed(w, scans, s, cycles)
    ensures Trustworthy(AfterRun(s, cycles), Mixture(w, scans))
  {
    var n := |scans| - 1;
    PerformedPrefix(w, scans, s, cycles);
    if n == 0 {
      assert cycles[..0] == [];
      FirstMixture(w, scans, s, cycles[0], fold);
    } else {
      ScansPrefix(w, scans);
      assert ScanOf(w, scans[..n][n - 1]);
      VisibleStageIsMixture(w, scans[..n], s, cycles[..n], fold);
      NextMixture(w, scans, AfterRun(s, cycles[..n]), cycles[n], fold);
    }
  }

  // Once every edit has been told

  ghost predicate SeesAll(w: World, scans: seq<Handoff.Scan>) {
    forall i :: 0 <= i < |w.edits| ==> Handoff.Scanned(i, w.edits[i], scans)
  }

  lemma DirtyWhenFed(w: World, scan: Handoff.Scan, u: Unit, i: nat, fold: char -> string)
    requires Edited(w, fold) && ScanOf(w, scan) && u in PlannedUnits(w.plan) && i < |w.edits|
    requires Feeds(w.layout, w.plan, u.id, w.edits[i]) && Handoff.ScanSees(scan, i, w.edits[i])
    ensures u.id in DirtyOf(w, scan)
  {
    assert u.id in Ids(w);
    if scan.dirty != [] { DirtyUnitsAreComplete(w.layout, w.plan, Ids(w), scan.dirty, w.edits[i], u.id); }
  }

  lemma {:induction false} UnchangedSince(w: World, a: nat, b: nat, u: Unit, fold: char -> string)
    requires Edited(w, fold) && a <= b <= |w.edits| && u in PlannedUnits(w.plan)
    requires forall i :: a <= i < b ==> !Feeds(w.layout, w.plan, u.id, w.edits[i])
    ensures OutputOf(w.runs[a], u) == OutputOf(w.runs[b], u)
    decreases b
  {
    if a < b {
      UnchangedSince(w, a, b - 1, u, fold);
      assert FedOrSame(w, b - 1, u);
    }
  }

  /** A unit is not fed after the last scan that rebuilt it. */
  lemma RebuiltSinceFed(w: World, scans: seq<Handoff.Scan>, u: Unit, j: nat, fold: char -> string)
    requires Edited(w, fold) && Scans(w, scans) && SeesAll(w, scans) && u in PlannedUnits(w.plan)
    requires j < |scans| && LastDirty(w, scans, u.id, j) && scans[j].start <= |w.edits|
    ensures OutputOf(w.runs[scans[j].start], u) == OutputOf(w.runs[|w.edits|], u)
  {
    forall i | scans[j].start <= i < |w.edits| ensures !Feeds(w.layout, w.plan, u.id, w.edits[i]) {
      if Feeds(w.layout, w.plan, u.id, w.edits[i]) {
        assert Handoff.Scanned(i, w.edits[i], scans);
        var m :| 0 <= m < |scans| && Handoff.ScanSees(scans[m], i, w.edits[i]);
        assert ScanOf(w, scans[m]);
        DirtyWhenFed(w, scans[m], u, i, fold);
        assert false;
      }
    }
    UnchangedSince(w, scans[j].start, |w.edits|, u, fold);
  }

  lemma LastScanReadsAll(w: World, scans: seq<Handoff.Scan>, fold: char -> string)
    requires Edited(w, fold) && Scans(w, scans) && SeesAll(w, scans) && scans != []
    ensures scans[|scans| - 1].start == |w.edits|
  {
    assert ScanOf(w, scans[|scans| - 1]);
    if w.edits != [] {
      var i := |w.edits| - 1;
      assert Handoff.Scanned(i, w.edits[i], scans);
      var m :| 0 <= m < |scans| && Handoff.ScanSees(scans[m], i, w.edits[i]);
      assert ScanOf(w, scans[m]);
    }
  }

  lemma MixtureIsCurrent(w: World, scans: seq<Handoff.Scan>, fold: char -> string)
    requires Edited(w, fold) && Scans(w, scans) && SeesAll(w, scans) && scans != [] && ScanOf(w, scans[|scans| - 1])
    ensures Alike(Mixture(w, scans), w.runs[|w.edits|], PlannedUnits(w.plan))
  {
    LastScanReadsAll(w, scans, fold);
    forall u | u in PlannedUnits(w.plan) ensures OutputOf(Mixture(w, scans), u) == OutputOf(w.runs[|w.edits|], u) {
      MixtureOutput(w, scans, u);
      var j :| 0 <= j < |scans| && LastDirty(w, scans, u.id, j) && OutputOf(Mixture(w, scans), u) == OutputOf(w.runs[scans[j].start], u);
      assert ScanOf(w, scans[j]);
      RebuiltSinceFed(w, scans, u, j, fold);
    }
  }

  /** When every edit was made before a scan that looked at it, the visible stage is
      the full build of the inputs as they are, and its metadata is trusted. */
  lemma SettledStageIsFullBuild(w: World, scans: seq<Handoff.Scan>, s: Session, cycles: seq<CycleInput>, fold: char -> string)
    requires Edited(w, fold) && Scans(w, scans) && scans != [] && SeesAll(w, scans)
    requires NoFileAboveClaims(s) && AllPerformed(w, scans, s, cycles)
    ensures var now, current := AfterRun(s, cycles), w.runs[|w.edits|];
      now.stage.Some? && now.trusted == LoadState(now.stage.value) && SameUpToOrder(now.stage.value, StageOf(FullRequest(current)))
  {
    assert ScanOf(w, scans[|scans| - 1]);
    VisibleStageIsMixture(w, scans, s, cycles, fold);
    MixtureIsCurrent(w, scans, fold);
    MixtureIsRun(w, scans, fold);
    AlikeTrust(AfterRun(s, cycles), Mixture(w, scans), w.runs[|w.edits|]);
    assert RunOf(w, w.runs[|w.edits|]);
    TrustworthyIsFullBuild(AfterRun(s, cycles), w.runs[|w.edits|]);
  }

  /** Whenever the loop waits for a first change with no event queued, the visible
      stage is the full build of the inputs as they are. */
  lemma QuietWaitShowsFullBuild(
      waits: seq<Handoff.Moment>, n: nat, w: World, s: Session, cycles: seq<CycleInput>, fold: char -> string)
    requires Handoff.AllAccounted(waits) && n < |waits| && waits[n].unread == []
    requires forall i :: 0 <= i < |waits[n].edits| ==> IsCovered(waits[n].edits[i], waits[n].roots)
    requires w.edits == waits[n].edits && Edited(w, fold)
    requires forall k :: 0 <= k < |waits[n].scans| && waits[n].scans[k].start < |w.runs| ==> ScanOf(w, waits[n].scans[k])
    requires NoFileAboveClaims(s) && AllPerformed(w, waits[n].scans, s, cycles)
    ensures var now, current := AfterRun(s, cycles), w.runs[|w.edits|];
      now.stage.Some? && now.trusted == LoadState(now.stage.value) && SameUpToOrder(now.stage.value, StageOf(FullRequest(current)))
  {
    var m := waits[n];
    forall i | 0 <= i < |w.edits| ensures Handoff.Scanned(i, w.edits[i], m.scans) { Handoff.NothingQueued(m, i); }
    SettledStageIsFullBuild(w, m.scans, s, cycles, fold);
  }
}
