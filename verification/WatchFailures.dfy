/** What failing cycles leave behind (commands/watch.py): a stage without its metadata,
    no stage at all, or changes that are forgotten. */
module WatchFailures {
  import opened Options
  import opened Ownership
  import opened Paths
  import opened Plan
  import opened Staging
  import opened Manifests
  import opened DirtyPaths
  import opened IncrementalBuild
  import opened IncrementalRefinement
  import opened IncrementalSafety
  import opened StagePublication
  import opened WatchRun

  // What a failure breaks

  predicate Agree(s: Session) { s.stage.Some? && s.trusted == LoadState(s.stage.value) }

  /** The swap went through but the sync after it failed. */
  predicate SyncFails(s: Session, faults: Faults) {
    faults.sync && !faults.moveIn && !(s.stage.Some? && faults.moveAside)
  }

  /** The next run would list the same manifests and claim the same paths. */
  predicate SameMetadata(built: Run, ms: seq<Manifest>, after: Run, dirty: set<string>) {
    IncrementalManifests(ms, after, dirty) == ms && ClaimsOf(after, ms) == ClaimsOf(built, ms)
  }

  lemma NextManifests(built: Run, ms: seq<Manifest>, stage: Tree, after: Run, dirty: set<string>)
    requires WellFormed(built) && IsStageOf(stage, built, ms)
    ensures LoadedManifests(SelectIncrementalBuild(after, LoadState(stage), stage, dirty)) == IncrementalManifests(ms, after, dirty)
  {
    if after.units == [] {
      NextOfNothing(ms, stage, after, dirty);
    } else {
      SelectedRequest(built, ms, stage, after, dirty);
      RequestManifests(built, ms, stage, after, dirty);
    }
  }

  lemma NextOfNothing(ms: seq<Manifest>, stage: Tree, after: Run, dirty: set<string>)
    requires after.units == []
    ensures LoadedManifests(SelectIncrementalBuild(after, LoadState(stage), stage, dirty)) == IncrementalManifests(ms, after, dirty)
  {
    EmptySelection(after, stage, dirty);
    FullBuild(after);
    NoneRetained(ms, dirty);
    assert UnitIds(after.units) == {};
  }

  lemma {:induction false} NoneRetained(ms: seq<Manifest>, dirty: set<string>)
    ensures Retained(ms, {}, dirty) == []
  {
    if ms != [] { NoneRetained(ms[..|ms| - 1], dirty); }
  }

  lemma NextState(built: Run, ms: seq<Manifest>, stage: Tree, after: Run, dirty: set<string>)
    requires WellFormed(built) && IsStageOf(stage, built, ms)
    ensures var next := StageOf(SelectIncrementalBuild(after, LoadState(stage), stage, dirty));
      LoadState(next) == LoadState(stage) <==> SameMetadata(built, ms, after, dirty)
  {
    var request := SelectIncrementalBuild(after, LoadState(stage), stage, dirty);
    NextManifests(built, ms, stage, after, dirty);
    PublishedState(built, Layer(built, built.units), ms);
    PublishedState(after, Staging.Candidate(request), LoadedManifests(request));
  }

  /** A cycle keeps the visible stage and the trusted metadata in agreement exactly when
      its rollback does not fail and, if the sync after the swap fails, the new run lists
      the manifests of the old one and claims the same paths. */
  lemma AgreementIsExact(s: Session, built: Run, ms: seq<Manifest>, c: CycleInput)
    requires WellFormed(built) && s.stage.Some? && IsStageOf(s.stage.value, built, ms) && Agree(s) && Swaps(s, c)
    ensures Agree(AfterCycle(s, c)) <==>
      (!RollbackFails(s.stage, c.faults) && (SyncFails(s, c.faults) ==> SameMetadata(built, ms, c.inputs.run, Dirty(c))))
  {
    NextState(built, ms, s.stage.value, c.inputs.run, Dirty(c));
  }

  /** After a failed rollback nothing is visible, and no later cycle of a plan with
      units brings a stage back: the first that evaluates ends the program. */
  lemma {:induction false} LostStageStaysLost(s: Session, cycles: seq<CycleInput>)
    requires s.stage.None? && s.trusted.Some?
    requires forall i :: 0 <= i < |cycles| ==> cycles[i].inputs.run.units != []
    ensures AfterRun(s, cycles) == s
    ensures forall i :: 0 <= i < |cycles| && cycles[i].evaluated ==> EndsProgram(s, cycles[i])
  {
    if cycles != [] {
      var front, last := cycles[..|cycles| - 1], cycles[|cycles| - 1];
      LostStageStaysLost(s, front);
      assert forall i :: 0 <= i < |front| ==> cycles[i] == front[i];
      assert last.inputs.run.units[0].id in UnitIds(last.inputs.run.units);
      assert !SeedAvailable(s, last);
    }
  }

  /** A file of a unit that changed but is not dirty keeps its old content. */
  lemma StaleFile(built: Run, ms: seq<Manifest>, stage: Tree, after: Run, dirty: set<string>, u: Unit, p: Path)
    requires WellFormed(built) && IsStageOf(stage, built, ms) && WellFormed(after)
    requires u in built.units && u in after.units && u.id !in dirty
    requires p in OutputOf(built, u).files && p in OutputOf(after, u).files
    requires OutputOf(built, u).files[p].Raw? && OutputOf(after, u).files[p].Raw?
    requires !UnderDroppedRoot(built, after, dirty, p)
    ensures var inc := SelectIncrementalBuild(after, LoadState(stage), stage, dirty);
      && p in StageOf(inc) && StageOf(inc)[p] == OutputOf(built, u).files[p]
      && p in StageOf(FullRequest(after)) && StageOf(FullRequest(after))[p] == OutputOf(after, u).files[p]
  {
    SelectedRequest(built, ms, stage, after, dirty);
    StaleCandidateFile(built, ms, stage, after, dirty, u, p);
    FullBuild(after);
    PublishedUnitFile(after, FreshManifests(after, after.units), StageOf(FullRequest(after)), u, p);
    UnitFilesAreStaged(after, u, p);
    CoordinatorFilesClaimed(after, LoadedManifests(IncrementalRequest(built, ms, stage, after, dirty)), p);
  }

  lemma StaleCandidateFile(built: Run, ms: seq<Manifest>, stage: Tree, after: Run, dirty: set<string>, u: Unit, p: Path)
    requires WellFormed(built) && IsStageOf(stage, built, ms) && WellFormed(after)
    requires u in built.units && u in after.units && u.id !in dirty
    requires p in OutputOf(built, u).files && p in OutputOf(after, u).files && OutputOf(built, u).files[p].Raw?
    requires !UnderDroppedRoot(built, after, dirty, p)
    ensures var candidate := Staging.Candidate(IncrementalRequest(built, ms, stage, after, dirty));
      p in candidate && candidate[p] == OutputOf(built, u).files[p]
  {
    PublishedUnitFile(built, ms, stage, u, p);
    UnitFilesAreStaged(built, u, p);
    RemovalsCover(built, ms, after, dirty, p);
    BuiltFile(after, dirty, u, p);
  }

  ghost predicate ChangedRawFile(built: Run, after: Run, dirty: set<string>, u: Unit, p: Path) {
    && u in built.units && u in after.units && u.id !in dirty && !UnderDroppedRoot(built, after, dirty, p)
    && p in OutputOf(built, u).files && p in OutputOf(after, u).files
    && OutputOf(built, u).files[p].Raw? && OutputOf(after, u).files[p].Raw?
    && OutputOf(built, u).files[p] != OutputOf(after, u).files[p]
  }

  lemma StaleStage(built: Run, ms: seq<Manifest>, stage: Tree, after: Run, dirty: set<string>, u: Unit, p: Path)
    requires WellFormed(built) && IsStageOf(stage, built, ms) && WellFormed(after)
    requires ChangedRawFile(built, after, dirty, u, p)
    ensures !SameUpToOrder(StageOf(SelectIncrementalBuild(after, LoadState(stage), stage, dirty)), StageOf(FullRequest(after)))
  {
    StaleFile(built, ms, stage, after, dirty, u, p);
    UnitFilesAreStaged(after, u, p);
    DifferentFile(StageOf(SelectIncrementalBuild(after, LoadState(stage), stage, dirty)), StageOf(FullRequest(after)), p);
  }

  lemma SuccessfulSession(s: Session, c: CycleInput)
    requires s.stage.Some? && s.trusted == LoadState(s.stage.value) && Succeeded(s, c)
    ensures AfterCycle(s, c).stage
      == Some(StageOf(SelectIncrementalBuild(c.inputs.run, LoadState(s.stage.value), s.stage.value, Dirty(c))))
  {
  }

  /** A failed cycle forgets its dirty paths: a unit that changed before it, and
      whose inputs no later dirty path touches, stays stale after the next success. */
  lemma FailedCycleLosesChanges(s: Session, built: Run, failing: CycleInput, next: CycleInput, u: Unit, p: Path)
    requires WellFormed(built) && Trustworthy(s, built) && WellFormed(next.inputs.run)
    requires !failing.evaluated && u.id in Dirty(failing)
    requires Succeeded(s, next) && ChangedRawFile(built, next.inputs.run, Dirty(next), u, p)
    ensures var last := AfterCycle(AfterCycle(s, failing), next);
      last.stage.Some? && !SameUpToOrder(last.stage.value, StageOf(FullRequest(next.inputs.run)))
  {
    var ms :| IsStageOf(s.stage.value, built, ms);
    StaleStage(built, ms, s.stage.value, next.inputs.run, Dirty(next), u, p);
    SuccessfulSession(s, next);
  }

  /** Exactly when the success after a failed cycle is stale: with manifests and file
      names kept, it shows the full build if and only if the units it leaves alone are as
      they were at the last success, whatever the failed cycle was told. */
  lemma FailedCycleIsExact(s: Session, built: Run, ms: seq<Manifest>, failing: CycleInput, next: CycleInput)
    requires Agree(s) && !Swaps(s, failing) && Succeeded(s, next) && Succeeds(FullRequest(next.inputs.run))
    requires ShapedCycle(built, ms, s.stage.value, next.inputs.run, Dirty(next))
    ensures var last := AfterCycle(AfterCycle(s, failing), next);
      last.stage.Some?
      && (SameUpToOrder(last.stage.value, StageOf(FullRequest(next.inputs.run)))
          <==> CleanUnitsUnchanged(built, next.inputs.run, Dirty(next)) && RetainedSafe(built, next.inputs.run, Dirty(next)))
  {
    SuccessfulSession(s, next);
    StalenessIsExact(built, ms, s.stage.value, next.inputs.run, Dirty(next));
  }
}
