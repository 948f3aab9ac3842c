/** What a watch cycle may do to the stage it replaces (commands/watch.py,
    staging/publication.py): the conditions under which it succeeds, path by path. */
module WatchGuard {
  import opened Options
  import opened Ownership
  import opened Paths
  import opened Staging
  import opened Manifests
  import opened IncrementalBuild
  import opened IncrementalRefinement
  import opened ReplacementGuard
  import opened StagePublication
  import opened WatchRun

  /** Every path that disappears is at, above or beneath a directory a unit of the old stage claims. */
  ghost predicate DeletesOnlyUnitPaths(stage: Tree, next: Tree) {
    forall p :: p in Entries(stage) && p !in Entries(next) ==>
      LoadState(stage).Some? && UnitOwned(p, LoadState(stage).value.claims)
  }

  /** The names a stage and its unit claims are made of have no slash and are not empty. */
  ghost predicate PlainStage(stage: Tree) {
    && (forall p :: p in Entries(stage) ==> Plain(p))
    && (LoadState(stage).Some? ==> PlainUnitClaims(LoadState(stage).value.claims))
  }

  lemma ListingsSameKinds(stage: Tree, next: Tree)
    ensures SameKinds(stage, next) <==>
      forall p :: p in ListingOf(stage) && p in ListingOf(next) ==> ListingOf(stage)[p] == ListingOf(next)[p]
  {
    assert forall p :: p in Entries(stage) <==> p in ListingOf(stage);
    assert forall p :: p in Entries(next) <==> p in ListingOf(next);
    if SameKinds(stage, next) {
    } else {
      var p :| p in Entries(stage) && p in Entries(next) && (p in stage <==> p !in next);
      assert p in ListingOf(stage) && p in ListingOf(next) && ListingOf(stage)[p] != ListingOf(next)[p];
    }
  }

  lemma GuardOnTrees(stage: Tree, next: Tree)
    requires PlainStage(stage)
    ensures ValidateReplacementCleanupScope(ListingOf(stage), ListingOf(next), LoadState(stage)).Ok?
      <==> DeletesOnlyUnitPaths(stage, next) && SameKinds(stage, next)
  {
    assert forall p :: p in Entries(stage) <==> p in ListingOf(stage);
    assert forall p :: p in Entries(next) <==> p in ListingOf(next);
    GuardIsExact(ListingOf(stage), ListingOf(next), LoadState(stage));
    ListingsSameKinds(stage, next);
  }

  /** What a cycle over a visible stage needs to get its candidate in place. */
  ghost predicate MayReplace(s: Session, c: CycleInput)
    requires s.stage.Some?
  {
    var stage, next := s.stage.value, StageOf(RequestOf(s, c));
    && c.evaluated && !c.refused && Succeeds(RequestOf(s, c)) && MANIFEST in stage
    && DeletesOnlyUnitPaths(stage, next) && SameKinds(stage, next)
  }

  /** What a cycle over a visible stage leaves behind. */
  ghost function Aftermath(s: Session, c: CycleInput): Session
    requires s.stage.Some?
  {
    var next := StageOf(RequestOf(s, c));
    if !MayReplace(s, c) || c.faults.moveAside || (c.faults.moveIn && !c.faults.moveBack) then s
    else if c.faults.moveIn then Session(None, s.trusted)
    else Session(Some(next), if c.faults.sync then s.trusted else LoadState(next))
  }

  lemma SwapNeedsLeave(s: Session, c: CycleInput)
    requires s.stage.Some? && PlainStage(s.stage.value)
    ensures Swaps(s, c) <==> MayReplace(s, c)
  {
    GuardOnTrees(s.stage.value, StageOf(RequestOf(s, c)));
  }

  /** Every outcome of a cycle over a visible stage: it succeeds exactly when nothing
      fails, the old stage has a manifest, only unit paths disappear and no surviving path
      turns from a file into a directory or back; a cycle that may not replace the stage
      changes nothing. */
  lemma CycleOutcomes(s: Session, c: CycleInput)
    requires s.stage.Some? && PlainStage(s.stage.value)
    ensures Succeeded(s, c) <==> MayReplace(s, c) && !c.faults.moveAside && !c.faults.moveIn && !c.faults.sync
    ensures AfterCycle(s, c) == Aftermath(s, c)
  {
    SwapNeedsLeave(s, c);
  }

  /** Without a visible stage a cycle succeeds exactly when no metadata asks for a seed,
      and what it publishes is a full build; with metadata that does the program ends. */
  lemma FirstPublication(s: Session, c: CycleInput)
    requires s.stage.None?
    ensures Succeeded(s, c) <==>
      && c.evaluated && !c.refused && (s.trusted.None? || c.inputs.run.units == [])
      && Succeeds(FullRequest(c.inputs.run)) && !c.faults.moveIn && !c.faults.sync
    ensures Succeeded(s, c) ==> AfterCycle(s, c).stage == Some(StageOf(FullRequest(c.inputs.run)))
    ensures EndsProgram(s, c) <==> c.evaluated && s.trusted.Some? && c.inputs.run.units != []
  {
    var units := c.inputs.run.units;
    if units != [] { assert units[0].id in UnitIds(units); }
    assert units == [] ==> UnitIds(units) == {};
  }

  lemma ClaimsArePlain(run: Run, ms: seq<Manifest>)
    requires WellFormed(run)
    ensures PlainUnitClaims(ClaimsOf(run, ms))
  {
    var claims := ClaimsOf(run, ms);
    forall i | 0 <= i < |claims| && claims[i].unitId.Some? ensures Plain(claims[i].path) { ClaimShape(run, ms, claims[i]); }
  }

  lemma CoordinatorFileIsNoUnitPath(run: Run, ms: seq<Manifest>, f: Path)
    requires WellFormed(run) && f in CoordinatorFiles(run, ms)
    ensures !UnitOwned(f, ClaimsOf(run, ms))
  {
    var claims := ClaimsOf(run, ms);
    CoordinatorFilesClaimed(run, ms, f);
    forall i | 0 <= i < |claims| && claims[i].unitId.Some? ensures InUnitArea(claims[i].path) { ClaimShape(run, ms, claims[i]); }
  }

  lemma CoordinatorFileIsPlain(run: Run, ms: seq<Manifest>, f: Path)
    requires PlanFilesApart(run) && f in CoordinatorFiles(run, ms)
    ensures Plain(f)
  {
    CoordinatorFilesWritten(run, ms, f);
    SharedFilesListed(run, Flatten(ms));
    CoordinatorFileShape(f);
  }

  lemma DroppedFileIsRefused(run: Run, ms: seq<Manifest>, stage: Tree, next: Tree, f: Path)
    requires WellFormed(run) && stage == Stage(run, Layer(run, run.units), ms)
    requires f in CoordinatorFiles(run, ms) && f !in next
    ensures ValidateReplacementCleanupScope(ListingOf(stage), ListingOf(next), LoadState(stage)).Err?
  {
    PublishedState(run, Layer(run, run.units), ms);
    ClaimsArePlain(run, ms);
    CoordinatorFileIsPlain(run, ms, f);
    CoordinatorFileIsNoUnitPath(run, ms, f);
    UnitOwnershipOnSegments(f, ClaimsOf(run, ms));
    StageFiles(run, ms, stage, f);
    assert f in stage && f[..|f|] == f;
    assert f in Entries(stage);
    if f in Entries(next) {
      assert f in ChangedKinds(ListingOf(stage), ListingOf(next));
    } else {
      assert f in AmbiguousDeletionPaths(ListingOf(stage).Keys - ListingOf(next).Keys, LoadState(stage));
    }
  }

  /** A cycle whose build no longer writes a file the coordinator wrote into the old
      stage fails, and leaves the stage and the trusted metadata as they were. */
  lemma DroppedCoordinatorFileFails(s: Session, run: Run, ms: seq<Manifest>, c: CycleInput, f: Path)
    requires WellFormed(run) && s.stage == Some(Stage(run, Layer(run, run.units), ms))
    requires f in CoordinatorFiles(run, ms) && f !in StageOf(RequestOf(s, c))
    ensures !Succeeded(s, c) && AfterCycle(s, c) == s
  {
    DroppedFileIsRefused(run, ms, s.stage.value, StageOf(RequestOf(s, c)), f);
  }
}
