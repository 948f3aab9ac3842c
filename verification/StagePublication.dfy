/** Publication of a candidate stage (staging/publication.py): the swap by rename
    with rollback, and the guard on what a replacement may delete. */
module StagePublication {
  import opened Options
  import opened Ownership
  import opened Paths
  import opened Staging
  import opened IncrementalBuild

  // The swap

  /** Which operations fail; leftover is what remains of the backup after cleanup. */
  datatype Faults = Faults(moveAside: bool, moveIn: bool, moveBack: bool, sync: bool, leftover: Option<Tree>)

  datatype Outcome = Published | RetainedStage | IntegrityError

  datatype Snapshot = Snapshot(stage: Option<Tree>, backup: Option<Tree>)

  class PublicationArea {
    var stage: Option<Tree>
    var backup: Option<Tree>
    var candidate: Option<Tree>
    /** Every state another process could have observed. */
    ghost var history: seq<Snapshot>

    constructor (visible: Option<Tree>, next: Tree)
      ensures stage == visible && backup == None && candidate == Some(next) && history == []
    {
      stage, backup, candidate, history := visible, None, Some(next), [];
    }

    /** Renames the visible stage to the backup path. */
    method MoveAside(fails: bool) returns (ok: bool)
      requires stage.Some?
      modifies this
      ensures ok == !fails && candidate == old(candidate)
      ensures if ok then stage == None && backup == old(stage) else stage == old(stage) && backup == old(backup)
      ensures history == old(history) + [Snapshot(stage, backup)]
    {
      if !fails { stage, backup := None, stage; }
      history := history + [Snapshot(stage, backup)];
      ok := !fails;
    }

    /** Renames the candidate to the visible path. */
    method MoveIn(fails: bool) returns (ok: bool)
      requires candidate.Some? && stage.None?
      modifies this
      ensures ok == !fails && backup == old(backup)
      ensures if ok then stage == old(candidate) && candidate == None else stage == None && candidate == old(candidate)
      ensures history == old(history) + [Snapshot(stage, backup)]
    {
      if !fails { stage, candidate := candidate, None; }
      history := history + [Snapshot(stage, backup)];
      ok := !fails;
    }

    /** Renames the backup to the visible path. */
    method MoveBack(fails: bool) returns (ok: bool)
      requires backup.Some? && stage.None?
      modifies this
      ensures ok == !fails && candidate == old(candidate)
      ensures if ok then stage == old(backup) && backup == None else stage == None && backup == old(backup)
      ensures history == old(history) + [Snapshot(stage, backup)]
    {
      if !fails { stage, backup := backup, None; }
      history := history + [Snapshot(stage, backup)];
      ok := !fails;
    }

    /** The finally block: removes a backup that is still there. */
    method CleanUp(leftover: Option<Tree>)
      modifies this
      ensures stage == old(stage) && candidate == old(candidate)
      ensures backup == if old(backup).Some? then leftover else None
      ensures history == old(history) + [Snapshot(stage, backup)]
    {
      if backup.Some? { backup := leftover; }
      history := history + [Snapshot(stage, backup)];
    }

    /** Swaps the candidate in. Every outcome and the tree it leaves visible. */
    method ReplaceStageRoot(faults: Faults) returns (outcome: Outcome)
      requires candidate.Some? && backup.None? && history == []
      modifies this
      ensures outcome == OutcomeOf(old(stage), faults)
      ensures stage == VisibleAfter(old(stage), old(candidate), faults)
      ensures outcome == Published ==> stage == old(candidate)
      ensures outcome == RetainedStage ==> stage == old(stage) && stage.Some? && candidate == old(candidate)
      ensures old(stage).Some? ==>
        ((forall i :: 0 <= i < |history| ==> Whole(history[i], old(stage), old(candidate))) <==> !LosesStage(old(stage), old(candidate), faults))
    {
      ghost var before, next := stage, candidate;
      var moved, published := false, false;
      var failed := false;
      if stage.Some? {
        moved := MoveAside(faults.moveAside);
        failed := !moved;
      }
      if !failed {
        published := MoveIn(faults.moveIn);
        failed := !published;
      }
      outcome := IntegrityError;
      if failed && moved && backup.Some? && stage.None? {
        var restored := MoveBack(faults.moveBack);
        if restored { outcome := RetainedStage; }
      }
      CleanUp(faults.leftover);
      if published && !faults.sync { outcome := Published; }
      assert before.Some? ==> history[|history| - 1] == Snapshot(stage, backup);
    }
  }

  /** The old tree is whole at the stage or in the backup, or the new one is in place. */
  predicate Whole(s: Snapshot, before: Option<Tree>, next: Option<Tree>) {
    s.stage == before || s.backup == before || s.stage == next
  }

  predicate RollbackFails(before: Option<Tree>, faults: Faults) {
    before.Some? && !faults.moveAside && faults.moveIn && faults.moveBack
  }

  /** The rollback fails and cleanup takes the backup with it. */
  predicate LosesStage(before: Option<Tree>, next: Option<Tree>, faults: Faults) {
    RollbackFails(before, faults) && faults.leftover != before
  }

  function OutcomeOf(before: Option<Tree>, faults: Faults): Outcome {
    if before.Some? && faults.moveAside then IntegrityError
    else if faults.moveIn then if before.Some? && !faults.moveBack then RetainedStage else IntegrityError
    else if faults.sync then IntegrityError
    else Published
  }

  function VisibleAfter(before: Option<Tree>, next: Option<Tree>, faults: Faults): Option<Tree> {
    if before.Some? && faults.moveAside then before
    else if faults.moveIn then if faults.moveBack then None else before
    else next
  }

  /** Unless the rollback or the sync fails, the swap is all or nothing: success
      shows the candidate and every error shows the old tree. */
  lemma SwapIsTransaction(before: Option<Tree>, next: Option<Tree>, faults: Faults)
    requires next.Some? && before.Some? && before != next
    ensures (OutcomeOf(before, faults) == Published <==> VisibleAfter(before, next, faults) == next)
      && (OutcomeOf(before, faults) != Published <==> VisibleAfter(before, next, faults) == before)
      <==> !RollbackFails(before, faults) && !(faults.sync && !faults.moveAside && !faults.moveIn)
  {
  }

  /** A failed rollback leaves nothing visible and nothing to recover from. */
  lemma FailedRollbackLosesStage(t: Tree, next: Tree)
    ensures var faults := Faults(false, true, true, false, None);
      OutcomeOf(Some(t), faults) == IntegrityError && VisibleAfter(Some(t), Some(next), faults) == None
      && LosesStage(Some(t), Some(next), faults)
  {
  }

  // The replacement guard

  datatype EntryKind = Directory | Regular

  /** The entries of a stage directory; the empty path is not one of them. */
  type Listing = map<Path, EntryKind>

  datatype GuardError = AmbiguousDeletion(paths: set<Path>) | KindChanged(paths: set<Path>)

  predicate IsUnitDirectory(c: OutputClaim) { c.unitId.Some? && c.isDirectory }

  /** The text test for a path covered by a unit-owned claim. */
  predicate StagePathIsUnitOwned(path: string, claims: seq<OutputClaim>) {
    || (exists i :: 0 <= i < |claims| && claims[i].unitId.Some? && path == Join(claims[i].path))
    || (exists i :: 0 <= i < |claims| && IsUnitDirectory(claims[i])
          && (TextBeneath(path, Join(claims[i].path)) || TextBeneath(Join(claims[i].path), path)))
  }

  function AmbiguousDeletionPaths(vanishing: set<Path>, state: Option<State>): set<Path> {
    if state.None? then vanishing
    else set p | p in vanishing && !StagePathIsUnitOwned(Join(p), state.value.claims)
  }

  function ChangedKinds(existing: Listing, candidate: Listing): set<Path> {
    set p | p in existing && p in candidate && existing[p] != candidate[p]
  }

  function ValidateReplacementCleanupScope(existing: Listing, candidate: Listing, state: Option<State>): Result<(), GuardError> {
    var ambiguous := AmbiguousDeletionPaths(existing.Keys - candidate.Keys, state);
    if ambiguous != {} then Err(AmbiguousDeletion(ambiguous))
    else if ChangedKinds(existing, candidate) != {} then Err(KindChanged(ChangedKinds(existing, candidate)))
    else Ok(())
  }

  /** At, above or beneath a directory a unit claims, or at a file it claims. */
  predicate UnitOwned(p: Path, claims: seq<OutputClaim>) {
    exists i :: 0 <= i < |claims| && claims[i].unitId.Some?
      && (p == claims[i].path || (claims[i].isDirectory && Comparable(claims[i].path, p)))
  }

  predicate PlainUnitClaims(claims: seq<OutputClaim>) {
    forall i :: 0 <= i < |claims| && claims[i].unitId.Some? ==> Plain(claims[i].path)
  }

  lemma UnitOwnershipOnSegments(p: Path, claims: seq<OutputClaim>)
    requires Plain(p) && PlainUnitClaims(claims)
    ensures StagePathIsUnitOwned(Join(p), claims) <==> UnitOwned(p, claims)
  {
    forall i | 0 <= i < |claims| && claims[i].unitId.Some?
      ensures Join(p) == Join(claims[i].path) <==> p == claims[i].path
      ensures TextBeneath(Join(p), Join(claims[i].path)) <==> claims[i].path < p
      ensures TextBeneath(Join(claims[i].path), Join(p)) <==> p < claims[i].path
    {
      TextPrefixIsSegmentPrefix(claims[i].path, p);
      TextPrefixIsSegmentPrefix(p, claims[i].path);
    }
  }

  /** The replacement is accepted exactly when every vanishing path belongs to a
      unit claim and no surviving path changes its kind. */
  lemma GuardIsExact(existing: Listing, candidate: Listing, state: Option<State>)
    requires forall p :: p in existing ==> Plain(p)
    requires state.Some? ==> PlainUnitClaims(state.value.claims)
    ensures ValidateReplacementCleanupScope(existing, candidate, state).Ok? <==>
      && (forall p :: p in existing && p !in candidate ==> state.Some? && UnitOwned(p, state.value.claims))
      && (forall p :: p in existing && p in candidate ==> existing[p] == candidate[p])
  {
    if state.Some? {
      forall p | p in existing ensures StagePathIsUnitOwned(Join(p), state.value.claims) <==> UnitOwned(p, state.value.claims) {
        UnitOwnershipOnSegments(p, state.value.claims);
      }
    }
    var vanishing := existing.Keys - candidate.Keys;
    var ambiguous := AmbiguousDeletionPaths(vanishing, state);
    assert forall p :: p in existing && p !in candidate ==> p in vanishing;
    assert ambiguous == {} <==> forall p :: p in vanishing ==> p !in ambiguous;
    assert ChangedKinds(existing, candidate) == {} <==> forall p :: p in existing ==> p !in ChangedKinds(existing, candidate);
  }
}
