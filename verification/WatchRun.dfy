/** Whole watch runs (commands/watch.py): the visible stage, the metadata watch
    trusts, and what cycles that succeed, fail or half-fail do to them. */
module WatchRun {
  import opened Options
  import opened Ownership
  import opened Paths
  import opened Plan
  import opened Staging
  import opened Manifests
  import opened DirtyPaths
  import opened IncrementalBuild
  import opened IncrementalRefinement
  import opened IncrementalSafety
  import opened ReplacementGuard
  import opened StagePublication

  // One cycle

  /** What a cycle reads: the plan, where it came from, and the run it describes. */
  datatype Inputs = Inputs(plan: BuildPlan, layout: Layout, run: Run)

  /** One cycle: its inputs, its dirty paths, and what goes wrong around the build;
      refused stands for the checks before the swap other than the guard. */
  datatype CycleInput = CycleInput(inputs: Inputs, dirtyPaths: seq<Path>, evaluated: bool, refused: bool, faults: Faults)

  datatype Session = Session(stage: Option<Tree>, trusted: Option<State>)

  function Dirty(c: CycleInput): set<string> {
    DirtyUnits(c.inputs.layout, c.inputs.plan, UnitIds(c.inputs.run.units), c.dirtyPaths)
  }

  function SeedOf(s: Session): Tree { if s.stage.Some? then s.stage.value else map[] }

  function RequestOf(s: Session, c: CycleInput): Request {
    SelectIncrementalBuild(c.inputs.run, s.trusted, SeedOf(s), Dirty(c))
  }

  /** A trusted stage that is gone cannot be copied as the seed. */
  predicate SeedAvailable(s: Session, c: CycleInput) { s.stage.Some? || RequestOf(s, c).included.None? }

  /** The copy of the missing seed raises, which no cycle survives: the program ends. */
  predicate EndsProgram(s: Session, c: CycleInput) { c.evaluated && !SeedAvailable(s, c) }

  /** A visible stage may be replaced: it has a manifest, and the guard accepts what
      the replacement deletes and changes. */
  predicate Replaceable(stage: Option<Tree>, next: Tree) {
    stage.Some? ==>
      MANIFEST in stage.value
      && ValidateReplacementCleanupScope(ListingOf(stage.value), ListingOf(next), LoadState(stage.value)).Ok?
  }

  /** The cycle reaches the swap. */
  predicate Swaps(s: Session, c: CycleInput) {
    && c.evaluated && SeedAvailable(s, c) && Succeeds(RequestOf(s, c)) && !c.refused
    && Replaceable(s.stage, StageOf(RequestOf(s, c)))
  }

  function NextStage(s: Session, c: CycleInput): Option<Tree> { Some(StageOf(RequestOf(s, c))) }

  predicate Succeeded(s: Session, c: CycleInput) { Swaps(s, c) && OutcomeOf(s.stage, c.faults) == Published }

  function AfterCycle(s: Session, c: CycleInput): Session {
    if !Swaps(s, c) then s
    else Session(VisibleAfter(s.stage, NextStage(s, c), c.faults),
                 if Succeeded(s, c) then LoadState(StageOf(RequestOf(s, c))) else s.trusted)
  }

  class WatchSession {
    var stage: Option<Tree>
    var trusted: Option<State>

    function Value(): Session
      reads this
    {
      Session(stage, trusted)
    }

    constructor (visible: Option<Tree>)
      ensures stage == visible && trusted == if visible.Some? then LoadState(visible.value) else None
    {
      stage := visible;
      trusted := if visible.Some? then LoadState(visible.value) else None;
    }

    /** The candidate of a cycle, if it gets as far as the swap. */
    method BuildCandidate(c: CycleInput) returns (next: Option<Tree>)
      ensures next == if Swaps(Value(), c) then NextStage(Value(), c) else None
    {
      if !c.evaluated { return None; }
      var dirty := DirtyUnitIdsForPaths(c.inputs.layout, c.inputs.plan, UnitIds(c.inputs.run.units), c.dirtyPaths);
      var seed := if stage.Some? then stage.value else map[];
      var request := SelectIncrementalBuild(c.inputs.run, trusted, seed, dirty);
      assert request == RequestOf(Value(), c);
      if request.included.Some? && stage.None? { return None; }
      var built := RunBuild(request);
      next := if built.Err? || c.refused || !Replaceable(stage, built.value) then None else Some(built.value);
    }

    /** Swaps the candidate in; only a published one is trusted. */
    method Publish(next: Tree, faults: Faults) returns (published: bool)
      modifies this
      ensures published == (OutcomeOf(old(stage), faults) == Published)
      ensures stage == VisibleAfter(old(stage), Some(next), faults)
      ensures trusted == if published then LoadState(next) else old(trusted)
    {
      var area := new PublicationArea(stage, next);
      var outcome := area.ReplaceStageRoot(faults);
      stage := area.stage;
      published := outcome == Published;
      if published { trusted := LoadState(next); }
    }

    /** Evaluates, builds and publishes; keeps the trusted metadata on any error. */
    method RunWatchCycle(c: CycleInput) returns (succeeded: bool)
      modifies this
      ensures succeeded == Succeeded(old(Value()), c)
      ensures Value() == AfterCycle(old(Value()), c)
    {
      var next := BuildCandidate(c);
      if next.None? { return false; }
      succeeded := Publish(next.value, c.faults);
    }

    /** Cycles one after the other. */
    method RunWatch(cycles: seq<CycleInput>)
      modifies this
      ensures Value() == AfterRun(old(Value()), cycles)
    {
      for i := 0 to |cycles|
        invariant Value() == AfterRun(old(Value()), cycles[..i])
      {
        assert cycles[..i + 1][..i] == cycles[..i];
        var succeeded := RunWatchCycle(cycles[i]);
      }
      assert cycles[..|cycles|] == cycles;
    }
  }

  function AfterRun(s: Session, cycles: seq<CycleInput>): Session {
    if cycles == [] then s else AfterCycle(AfterRun(s, cycles[..|cycles| - 1]), cycles[|cycles| - 1])
  }

  /** The run whose inputs the last successful cycle read. */
  function LastBuilt(s: Session, built: Run, cycles: seq<CycleInput>): Run {
    if cycles == [] then built
    else
      var before, last := cycles[..|cycles| - 1], cycles[|cycles| - 1];
      if Succeeded(AfterRun(s, before), last) then last.inputs.run else LastBuilt(s, built, before)
  }

  // Safety

  /** The visible stage is a stage of the given run, and watch trusts its metadata. */
  ghost predicate Trustworthy(s: Session, built: Run) {
    s.stage.Some? && s.trusted == LoadState(s.stage.value) && exists ms :: IsStageOf(s.stage.value, built, ms)
  }

  /** The units left alone did not change since the last success and lose no file. */
  ghost predicate CoversChanges(built: Run, c: CycleInput) {
    WellFormed(c.inputs.run) && CleanUnitsUnchanged(built, c.inputs.run, Dirty(c)) && RetainedSafe(built, c.inputs.run, Dirty(c))
  }

  /** The rollback rename and the sync after the swap do not fail. */
  predicate Recovers(s: Session, faults: Faults) { !RollbackFails(s.stage, faults) && !faults.sync }

  lemma CycleIsSafe(s: Session, built: Run, c: CycleInput)
    requires WellFormed(built) && Trustworthy(s, built)
    requires Swaps(s, c) ==> CoversChanges(built, c) && Recovers(s, c.faults)
    ensures !Succeeded(s, c) ==> AfterCycle(s, c) == s
    ensures Succeeded(s, c) ==> Trustworthy(AfterCycle(s, c), c.inputs.run) && WellFormed(c.inputs.run)
  {
    if Succeeded(s, c) {
      var ms :| IsStageOf(s.stage.value, built, ms);
      SuccessfulBuild(built, ms, s.stage.value, c);
    }
  }

  lemma SuccessfulBuild(built: Run, ms: seq<Manifest>, stage: Tree, c: CycleInput)
    requires WellFormed(built) && IsStageOf(stage, built, ms) && CoversChanges(built, c)
    ensures exists ns :: IsStageOf(StageOf(SelectIncrementalBuild(c.inputs.run, LoadState(stage), stage, Dirty(c))), c.inputs.run, ns)
  {
    var run, dirty := c.inputs.run, Dirty(c);
    if run.units == [] {
      EmptySelection(run, stage, dirty);
      FullBuildIsStage(run);
    } else {
      SelectedRequest(built, ms, stage, run, dirty);
      SafeIncrementalBuild(built, ms, stage, run, dirty);
    }
  }

  /** The state after each cycle of a run satisfies what its next cycle needs. */
  ghost predicate RunCovered(s: Session, built: Run, cycles: seq<CycleInput>) {
    forall i {:trigger cycles[..i]} :: 0 <= i < |cycles| ==> CycleCovered(AfterRun(s, cycles[..i]), LastBuilt(s, built, cycles[..i]), cycles[i])
  }

  ghost predicate CycleCovered(s: Session, built: Run, c: CycleInput) {
    Swaps(s, c) ==> CoversChanges(built, c) && Recovers(s, c.faults)
  }

  lemma RunCoveredPrefix(s: Session, built: Run, cycles: seq<CycleInput>, n: nat)
    requires RunCovered(s, built, cycles) && n <= |cycles|
    ensures RunCovered(s, built, cycles[..n])
  {
    forall i {:trigger cycles[..n][..i]} | 0 <= i < n
      ensures CycleCovered(AfterRun(s, cycles[..n][..i]), LastBuilt(s, built, cycles[..n][..i]), cycles[..n][i])
    {
      assert cycles[..n][..i] == cycles[..i];
    }
  }

  /** Over every run of successful and failed cycles the visible stage and the
      trusted metadata agree and belong to the inputs of the last success. */
  lemma {:induction false} RunIsSafe(s: Session, built: Run, cycles: seq<CycleInput>)
    requires WellFormed(built) && Trustworthy(s, built) && RunCovered(s, built, cycles)
    ensures Trustworthy(AfterRun(s, cycles), LastBuilt(s, built, cycles)) && WellFormed(LastBuilt(s, built, cycles))
  {
    if cycles != [] {
      var n := |cycles| - 1;
      RunCoveredPrefix(s, built, cycles, n);
      RunIsSafe(s, built, cycles[..n]);
      assert CycleCovered(AfterRun(s, cycles[..n]), LastBuilt(s, built, cycles[..n]), cycles[n]);
      CycleIsSafe(AfterRun(s, cycles[..n]), LastBuilt(s, built, cycles[..n]), cycles[n]);
    }
  }

  /** A trustworthy stage is the full build of its inputs, up to manifest order. */
  lemma TrustworthyIsFullBuild(s: Session, built: Run)
    requires WellFormed(built) && Trustworthy(s, built)
    ensures SameUpToOrder(s.stage.value, StageOf(FullRequest(built)))
  {
    var ms :| IsStageOf(s.stage.value, built, ms);
    FullBuildIsStage(built);
    StagesAgreeUpToOrder(built, s.stage.value, ms, StageOf(FullRequest(built)), FreshManifests(built, built.units));
  }

  /** At every moment of a covered run the visible stage is what a full build of
      the last successful cycle's inputs would publish. */
  lemma EveryMomentShowsAFullBuild(s: Session, built: Run, cycles: seq<CycleInput>, n: nat)
    requires WellFormed(built) && Trustworthy(s, built) && RunCovered(s, built, cycles) && n <= |cycles|
    ensures var now, last := AfterRun(s, cycles[..n]), LastBuilt(s, built, cycles[..n]);
      now.stage.Some? && now.trusted == LoadState(now.stage.value) && SameUpToOrder(now.stage.value, StageOf(FullRequest(last)))
  {
    RunCoveredPrefix(s, built, cycles, n);
    RunIsSafe(s, built, cycles[..n]);
    TrustworthyIsFullBuild(AfterRun(s, cycles[..n]), LastBuilt(s, built, cycles[..n]));
  }

  // The first cycle, from whatever stage is found

  /** Every claim is dropped when every current unit is dirty. */
  lemma {:induction false} NothingRetained(ms: seq<Manifest>, current: set<string>, dirty: set<string>)
    requires current <= dirty
    ensures Retained(ms, current, dirty) == []
  {
    if ms != [] { NothingRetained(ms[..|ms| - 1], current, dirty); }
  }

  lemma {:induction false} EverythingIncluded(units: seq<Unit>, dirty: set<string>)
    requires forall i :: 0 <= i < |units| ==> units[i].id in dirty
    ensures Included(units, Some(dirty)) == units
  {
    if units != [] {
      EverythingIncluded(units[..|units| - 1], dirty);
      assert units == units[..|units| - 1] + [units[|units| - 1]];
    }
  }

  lemma AllUnitsIncluded(units: seq<Unit>, dirty: set<string>)
    requires UnitIds(units) <= dirty
    ensures Included(units, Some(dirty)) == units
  {
    assert forall i :: 0 <= i < |units| ==> units[i].id in UnitIds(units);
    EverythingIncluded(units, dirty);
  }

  lemma NoSeedFileStays(run: Run, state: State, seed: Tree, dirty: set<string>)
    requires UnitIds(run.units) <= dirty
    requires [] !in seed && forall f, c :: f in seed && c in state.claims ==> !(f < c.path)
    ensures Prune(seed, DroppedPaths(state.claims, UnitIds(run.units), dirty) + UnclaimedPaths(seed, state.claims)) == map[]
  {
    var removed := DroppedPaths(state.claims, UnitIds(run.units), dirty) + UnclaimedPaths(seed, state.claims);
    forall f | f in seed ensures Covered(f, removed) {
      assert f[..|f|] == f;
      assert f in Entries(seed);
      if Claimed(f, state.claims) {
        var i :| 0 <= i < |state.claims| && Comparable(state.claims[i].path, f);
        assert state.claims[i] in state.claims && Dropped(state.claims[i], UnitIds(run.units), dirty);
        assert state.claims[i].path in removed;
      } else {
        assert f in removed;
      }
    }
  }

  /** With every unit dirty, whatever stage and metadata are found, the build is the
      full build, manifest order included: a session needs no trust in who built the
      stage it starts from, as long as no file stands where a claim needs a directory. */
  lemma FullCycleIgnoresSeed(run: Run, state: State, seed: Tree, dirty: set<string>)
    requires UnitIds(run.units) <= dirty
    requires [] !in seed && forall f, c :: f in seed && c in state.claims ==> !(f < c.path)
    ensures var request := SelectIncrementalBuild(run, Some(state), seed, dirty);
      StageOf(request) == StageOf(FullRequest(run)) && (Succeeds(request) <==> Succeeds(FullRequest(run)))
  {
    NothingRetained(state.manifests, UnitIds(run.units), dirty);
    AllUnitsIncluded(run.units, dirty);
    NoSeedFileStays(run, state, seed, dirty);
    FullBuild(run);
    if UnitIds(run.units) != {} {
      var request := SelectIncrementalBuild(run, Some(state), seed, dirty);
      assert LoadedManifests(request) == [] + FreshManifests(run, run.units);
      assert Staging.Candidate(request) == map[] + Layer(run, run.units) == Layer(run, run.units);
    }
  }

  ghost predicate NoFileAboveClaims(s: Session) {
    s.trusted.Some? ==>
      [] !in SeedOf(s) && forall f, c :: f in SeedOf(s) && c in s.trusted.value.claims ==> !(f < c.path)
  }

  lemma FirstRequest(s: Session, c: CycleInput)
    requires c.dirtyPaths == [] && NoFileAboveClaims(s)
    ensures StageOf(RequestOf(s, c)) == StageOf(FullRequest(c.inputs.run))
  {
    if s.trusted.Some? { FullCycleIgnoresSeed(c.inputs.run, s.trusted.value, SeedOf(s), Dirty(c)); }
  }

  /** The first cycle of a session has no dirty paths; if it succeeds, the session is
      trustworthy, whatever it found. */
  lemma SessionStart(s: Session, c: CycleInput)
    requires c.dirtyPaths == [] && NoFileAboveClaims(s) && WellFormed(c.inputs.run) && Succeeded(s, c)
    ensures Trustworthy(AfterCycle(s, c), c.inputs.run)
  {
    FirstRequest(s, c);
    FullBuildIsStage(c.inputs.run);
  }

  /** A whole session: after a successful first cycle, every covered run of cycles
      keeps showing the full build of what the last success read. */
  lemma WholeSessionIsSafe(s: Session, first: CycleInput, cycles: seq<CycleInput>)
    requires first.dirtyPaths == [] && NoFileAboveClaims(s) && WellFormed(first.inputs.run) && Succeeded(s, first)
    requires RunCovered(AfterCycle(s, first), first.inputs.run, cycles)
    ensures var now, last := AfterRun(AfterCycle(s, first), cycles), LastBuilt(AfterCycle(s, first), first.inputs.run, cycles);
      now.stage.Some? && now.trusted == LoadState(now.stage.value) && SameUpToOrder(now.stage.value, StageOf(FullRequest(last)))
  {
    SessionStart(s, first);
    RunIsSafe(AfterCycle(s, first), first.inputs.run, cycles);
    TrustworthyIsFullBuild(AfterRun(AfterCycle(s, first), cycles), LastBuilt(AfterCycle(s, first), first.inputs.run, cycles));
  }
}
