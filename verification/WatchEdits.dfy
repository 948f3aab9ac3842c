/** From an edit log to safe watch runs (commands/watch.py, commands/watch_events.py):
    what is edited, what a cycle is told about it, and what it then rebuilds. */
module WatchEdits {
  import opened Options
  import opened Ownership
  import opened Paths
  import opened Plan
  import opened Staging
  import opened Manifests
  import opened DirtyPaths
  import opened IncrementalBuild
  import opened IncrementalRefinement
  import opened IncrementalSafety
  import opened StagePublication
  import opened WatchRun

  // One cycle

  /** Units that no edited path feeds are as they were. */
  ghost predicate OnlyFedUnitsChanged(built: Run, inputs: Inputs, edited: seq<Path>) {
    forall u :: u in inputs.run.units && (forall p :: p in edited ==> !Feeds(inputs.layout, inputs.plan, u.id, p)) ==>
      Unchanged(built, inputs.run, u)
  }

  /** The dirty paths cover every edited path and lie where the watcher looks. */
  ghost predicate Covers(inputs: Inputs, dirtyPaths: seq<Path>, edited: seq<Path>) {
    && (forall p :: p in edited ==> IsCovered(p, dirtyPaths))
    && AllInScope(inputs, dirtyPaths)
  }

  ghost predicate AllInScope(inputs: Inputs, paths: seq<Path>) {
    forall p :: p in paths ==> InScope(inputs.layout, inputs.plan, p)
  }

  /** The units are those of the plan, and no two of them share an input. */
  ghost predicate InputsOfPlan(inputs: Inputs) {
    inputs.run.units == PlannedUnits(inputs.plan) && InputsApart(inputs.layout, inputs.plan, UnitIds(inputs.run.units))
  }

  /** Dirty paths that cover every edit since the last success cover all changed units. */
  lemma EditsAreCovered(built: Run, c: CycleInput, edited: seq<Path>)
    requires InputsOfPlan(c.inputs) && Covers(c.inputs, c.dirtyPaths, edited)
    requires OnlyFedUnitsChanged(built, c.inputs, edited)
    ensures CleanUnitsUnchanged(built, c.inputs.run, Dirty(c))
  {
    var current := UnitIds(c.inputs.run.units);
    forall u | u in c.inputs.run.units && u.id !in Dirty(c) ensures Unchanged(built, c.inputs.run, u) {
      forall p | p in edited ensures !Feeds(c.inputs.layout, c.inputs.plan, u.id, p) {
        if Feeds(c.inputs.layout, c.inputs.plan, u.id, p) {
          DirtyUnitsAreComplete(c.inputs.layout, c.inputs.plan, current, c.dirtyPaths, p, u.id);
          assert false;
        }
      }
    }
  }

  /** The units of a plan that passed validation. */
  ghost predicate Validated(units: seq<Unit>, plan: BuildPlan, fold: char -> string) {
    units == PlannedUnits(plan) && DistinctSlugs(plan.components) && Disjoint(units, fold)
  }

  ghost predicate FromValidPlan(run: Run, fold: char -> string) {
    WellFormed(run) && exists plan :: Validated(run.units, plan, fold)
  }

  /** What a cycle is told: nothing, which rebuilds everything, or dirty paths that
      cover all edits and drop the two nested site roots together or not at all. */
  ghost predicate Told(built: Run, c: CycleInput, edited: seq<Path>) {
    c.dirtyPaths == [] || (Covers(c.inputs, c.dirtyPaths, edited) && NestedUnitsTogether(built, c.inputs.run, Dirty(c)))
  }

  /** What makes one cycle safe, in terms a caller can check: validated plans whose
      inputs are apart, and dirty paths that tell of every edit since the last success. */
  lemma PlannedCycleIsCovered(built: Run, c: CycleInput, edited: seq<Path>, fold: char -> string)
    requires FromValidPlan(built, fold) && WellFormed(c.inputs.run) && InputsOfPlan(c.inputs)
    requires OnlyFedUnitsChanged(built, c.inputs, edited) && Told(built, c, edited)
    ensures CoversChanges(built, c)
  {
    if c.dirtyPaths == [] {
      FullCycleIsCovered(built, c);
    } else {
      var plan :| Validated(built.units, plan, fold);
      EditsAreCovered(built, c, edited);
      ValidatedPlansAreSafe(built, c.inputs.run, Dirty(c), plan, fold);
    }
  }

  /** A cycle without dirty paths covers everything. */
  lemma FullCycleIsCovered(built: Run, c: CycleInput)
    requires WellFormed(c.inputs.run) && c.dirtyPaths == []
    ensures CoversChanges(built, c)
  {
  }

  // Whole runs

  /** A cycle and the paths edited since the cycle before it read its inputs. */
  datatype Entry = Entry(cycle: CycleInput, edits: seq<Path>)

  function Cycles(log: seq<Entry>): (cycles: seq<CycleInput>)
    ensures |cycles| == |log|
  {
    if log == [] then [] else Cycles(log[..|log| - 1]) + [log[|log| - 1].cycle]
  }

  /** The edits no successful cycle has read yet. */
  function Pending(s: Session, log: seq<Entry>): seq<Path> {
    if log == [] then []
    else
      var front, last := log[..|log| - 1], log[|log| - 1];
      if Succeeded(AfterRun(s, Cycles(front)), last.cycle) then [] else Pending(s, front) + last.edits
  }

  predicate EntrySucceeds(s: Session, log: seq<Entry>, k: nat)
    requires k < |log|
  {
    Succeeded(AfterRun(s, Cycles(log[..k])), log[k].cycle)
  }

  /** The first n entries end with a success, and no later one succeeds. */
  ghost predicate LastSuccess(s: Session, log: seq<Entry>, n: nat) {
    && n <= |log| && (n > 0 ==> EntrySucceeds(s, log, n - 1))
    && forall k :: n <= k < |log| ==> !EntrySucceeds(s, log, k)
  }

  function EditsOf(log: seq<Entry>): seq<Path> {
    if log == [] then [] else EditsOf(log[..|log| - 1]) + log[|log| - 1].edits
  }

  lemma LastSuccessBefore(s: Session, log: seq<Entry>, n: nat)
    requires LastSuccess(s, log, n) && n < |log|
    ensures LastSuccess(s, log[..|log| - 1], n)
  {
    var front := log[..|log| - 1];
    forall k | 0 <= k < |front| ensures EntrySucceeds(s, front, k) <==> EntrySucceeds(s, log, k) { assert front[..k] == log[..k]; }
  }

  lemma PendingStep(s: Session, log: seq<Entry>)
    requires log != []
    ensures Pending(s, log) == if EntrySucceeds(s, log, |log| - 1) then [] else Pending(s, log[..|log| - 1]) + log[|log| - 1].edits
  {
  }

  lemma EditsStep(log: seq<Entry>, n: nat)
    requires n < |log|
    ensures EditsOf(log[n..]) == EditsOf(log[..|log| - 1][n..]) + log[|log| - 1].edits
  {
    assert log[n..][..|log| - 1 - n] == log[..|log| - 1][n..];
  }

  /** All edits since the last success are pending, in order. */
  lemma {:induction false} PendingSinceSuccess(s: Session, log: seq<Entry>, n: nat)
    requires LastSuccess(s, log, n)
    ensures Pending(s, log) == EditsOf(log[n..])
  {
    if n < |log| {
      LastSuccessBefore(s, log, n);
      PendingSinceSuccess(s, log[..|log| - 1], n);
      PendingStep(s, log);
      EditsStep(log, n);
    } else {
      assert log[n..] == [];
      if log != [] { PendingStep(s, log); }
    }
  }

  /** The last entry of a log: if its cycle reaches the swap, its plan is validated, only
      units its edits feed changed, it was told of them, and rollback and sync do not fail. */
  ghost predicate LastAccounted(s: Session, built: Run, log: seq<Entry>, fold: char -> string)
    requires log != []
  {
    var front, last := log[..|log| - 1], log[|log| - 1];
    var now, before, edited := AfterRun(s, Cycles(front)), LastBuilt(s, built, Cycles(front)), Pending(s, front) + last.edits;
    Swaps(now, last.cycle) ==>
      && FromValidPlan(last.cycle.inputs.run, fold) && InputsOfPlan(last.cycle.inputs)
      && OnlyFedUnitsChanged(before, last.cycle.inputs, edited) && Told(before, last.cycle, edited)
      && Recovers(now, last.cycle.faults)
  }

  ghost predicate Accounted(s: Session, built: Run, log: seq<Entry>, fold: char -> string) {
    forall n :: 0 < n <= |log| ==> LastAccounted(s, built, log[..n], fold)
  }

  lemma AccountedPrefix(s: Session, built: Run, log: seq<Entry>, fold: char -> string, m: nat)
    requires Accounted(s, built, log, fold) && m <= |log|
    ensures Accounted(s, built, log[..m], fold)
  {
    forall n | 0 < n <= m ensures LastAccounted(s, built, log[..m][..n], fold) {
      assert log[..m][..n] == log[..n];
      assert LastAccounted(s, built, log[..n], fold);
    }
  }

  lemma {:induction false} CyclesPrefix(log: seq<Entry>, n: nat)
    requires n <= |log|
    ensures Cycles(log[..n]) == Cycles(log)[..n]
  {
    if n < |log| {
      CyclesPrefix(log[..|log| - 1], n);
      assert log[..|log| - 1][..n] == log[..n];
    } else {
      assert log[..n] == log;
    }
  }

  lemma LastEntryIsCovered(s: Session, built: Run, log: seq<Entry>, fold: char -> string)
    requires log != [] && LastAccounted(s, built, log, fold)
    requires FromValidPlan(LastBuilt(s, built, Cycles(log[..|log| - 1])), fold)
    ensures CycleCovered(AfterRun(s, Cycles(log[..|log| - 1])), LastBuilt(s, built, Cycles(log[..|log| - 1])), log[|log| - 1].cycle)
    ensures FromValidPlan(LastBuilt(s, built, Cycles(log)), fold)
  {
    var front, last := log[..|log| - 1], log[|log| - 1];
    var now, before := AfterRun(s, Cycles(front)), LastBuilt(s, built, Cycles(front));
    if Swaps(now, last.cycle) { PlannedCycleIsCovered(before, last.cycle, Pending(s, front) + last.edits, fold); }
    assert Cycles(log)[..|log| - 1] == Cycles(front);
  }

  lemma LogIsAccounted(s: Session, built: Run, log: seq<Entry>, fold: char -> string)
    requires log != [] && Accounted(s, built, log, fold)
    ensures Accounted(s, built, log[..|log| - 1], fold) && LastAccounted(s, built, log, fold)
  {
    AccountedPrefix(s, built, log, fold, |log| - 1);
    assert log[..|log|] == log;
    assert LastAccounted(s, built, log[..|log|], fold);
  }

  /** A run whose edit log is accounted for is covered, cycle by cycle. */
  lemma {:induction false} AccountedRunIsCovered(s: Session, built: Run, log: seq<Entry>, fold: char -> string)
    requires FromValidPlan(built, fold) && Accounted(s, built, log, fold)
    ensures RunCovered(s, built, Cycles(log)) && FromValidPlan(LastBuilt(s, built, Cycles(log)), fold)
  {
    if log != [] {
      var front := log[..|log| - 1];
      LogIsAccounted(s, built, log, fold);
      AccountedRunIsCovered(s, built, front, fold);
      LastEntryIsCovered(s, built, log, fold);
      ExtendCovered(s, built, Cycles(front), log[|log| - 1].cycle);
    }
  }

  lemma ExtendCovered(s: Session, built: Run, cycles: seq<CycleInput>, c: CycleInput)
    requires RunCovered(s, built, cycles) && CycleCovered(AfterRun(s, cycles), LastBuilt(s, built, cycles), c)
    ensures RunCovered(s, built, cycles + [c])
  {
    var more := cycles + [c];
    forall i {:trigger more[..i]} | 0 <= i < |more|
      ensures CycleCovered(AfterRun(s, more[..i]), LastBuilt(s, built, more[..i]), more[i])
    {
      assert more[..i] == cycles[..i];
      if i == |cycles| { assert cycles[..i] == cycles; }
    }
  }

  /** A whole session from its edit log: after a successful first cycle, and as long as
      the log is accounted for, the visible stage is at every moment what a full build of
      the inputs of the last success would publish, and its metadata is trusted. */
  lemma LoggedSessionIsSafe(s: Session, first: CycleInput, log: seq<Entry>, fold: char -> string, n: nat)
    requires first.dirtyPaths == [] && NoFileAboveClaims(s) && FromValidPlan(first.inputs.run, fold) && Succeeded(s, first)
    requires Accounted(AfterCycle(s, first), first.inputs.run, log, fold) && n <= |log|
    ensures var start := AfterCycle(s, first);
      var now, last := AfterRun(start, Cycles(log[..n])), LastBuilt(start, first.inputs.run, Cycles(log[..n]));
      now.stage.Some? && now.trusted == LoadState(now.stage.value) && SameUpToOrder(now.stage.value, StageOf(FullRequest(last)))
  {
    SessionStart(s, first);
    AccountedRunIsCovered(AfterCycle(s, first), first.inputs.run, log, fold);
    EveryMomentShowsAFullBuild(AfterCycle(s, first), first.inputs.run, Cycles(log), n);
    CyclesPrefix(log, n);
  }

  /** After a success nothing is pending, so the coalesced paths of the edits since then
      cover everything; after a failure they need not. */
  lemma CollectedEditsAreCovered(s: Session, log: seq<Entry>)
    requires log != [] && AllInScope(log[|log| - 1].cycle.inputs, log[|log| - 1].edits)
    requires Coalesced(log[|log| - 1].edits, log[|log| - 1].cycle.dirtyPaths)
    requires |log| > 1 ==> Succeeded(AfterRun(s, Cycles(log[..|log| - 2])), log[|log| - 2].cycle)
    ensures Covers(log[|log| - 1].cycle.inputs, log[|log| - 1].cycle.dirtyPaths, Pending(s, log[..|log| - 1]) + log[|log| - 1].edits)
  {
    var front := log[..|log| - 1];
    if front != [] { assert front[..|front| - 1] == log[..|log| - 2]; }
    assert Pending(s, front) == [];
  }
}
