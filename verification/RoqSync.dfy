/** The Roq adapter (examples/roq/sync_stage.py): planning adapted content paths
    and swapping the generated roots with rollback. */
module RoqSync {
  import opened Options
  import opened Paths
  import opened Sorting

  // Publication of the generated roots

  datatype Content = Content(text: string)

  /** The operations that fail, by root; after a failed discard the root holds what
      is listed in remains, if anything. */
  datatype RootFaults = RootFaults(
    moveAside: set<string>, moveIn: set<string>, restore: set<string>, discard: set<string>, moveBack: set<string>,
    remains: map<string, Content>, remove: set<string>)

  /** A failed publication with the roots it reports as not rolled back, or a previous
      root that could not be removed after a publication that went through. */
  datatype PublishError = NotReplaced(unrestored: seq<string>) | NotRemoved(name: string)

  function At(m: map<string, Content>, name: string): Option<Content> { if name in m then Some(m[name]) else None }

  /** One of the two forward renames of this root fails. */
  predicate ForwardFails(prior: map<string, Content>, faults: RootFaults, name: string) {
    (name in prior && name in faults.moveAside) || name in faults.moveIn
  }

  function FirstFailure(order: seq<string>, prior: map<string, Content>, faults: RootFaults, from: nat): (k: nat)
    requires from <= |order|
    ensures from <= k <= |order|
    ensures k < |order| ==> ForwardFails(prior, faults, order[k])
    ensures forall j :: from <= j < k ==> !ForwardFails(prior, faults, order[j])
    decreases |order| - from
  {
    if from == |order| || ForwardFails(prior, faults, order[from]) then from
    else FirstFailure(order, prior, faults, from + 1)
  }

  /** The first root whose previous content cannot be removed. */
  function FirstLeftover(order: seq<string>, prior: map<string, Content>, faults: RootFaults, from: nat): (k: nat)
    requires from <= |order|
    ensures from <= k <= |order|
    decreases |order| - from
  {
    if from == |order| || (order[from] in prior && order[from] in faults.remove) then from
    else FirstLeftover(order, prior, faults, from + 1)
  }

  /** A root whose own rename failed, after its immediate restore. */
  function AfterFailedMove(prior: map<string, Content>, faults: RootFaults, name: string): Option<Content> {
    if name in prior && name in faults.moveAside then At(prior, name)
    else if name in faults.restore then None
    else At(prior, name)
  }

  /** A root that had been published, after the rollback. */
  function AfterRollback(prior: map<string, Content>, faults: RootFaults, name: string): Option<Content> {
    if name in faults.discard then At(faults.remains, name)
    else if name in faults.moveBack then None
    else At(prior, name)
  }

  predicate RollbackReported(prior: map<string, Content>, faults: RootFaults, name: string) {
    name in faults.discard || (name in prior && name in faults.moveBack)
  }

  /** What each root holds in the end. */
  function FinalRoot(order: seq<string>, prior: map<string, Content>, prepared: map<string, Content>, faults: RootFaults, k: nat): Option<Content>
    requires k < |order|
  {
    var failure := FirstFailure(order, prior, faults, 0);
    if failure == |order| then At(prepared, order[k])
    else if k < failure then AfterRollback(prior, faults, order[k])
    else if k == failure then AfterFailedMove(prior, faults, order[k])
    else At(prior, order[k])
  }

  /** The failures of the rollback over order[..k], last root first. */
  function ReportedFailures(order: seq<string>, prior: map<string, Content>, faults: RootFaults, k: nat): seq<string>
    requires k <= |order|
  {
    if k == 0 then []
    else
      (if RollbackReported(prior, faults, order[k - 1]) then [order[k - 1]] else [])
      + ReportedFailures(order, prior, faults, k - 1)
  }

  class RoqProject {
    var roots: map<string, Content>
    var aside: map<string, Content>

    constructor (existing: map<string, Content>)
      ensures roots == existing && aside == map[]
    {
      roots, aside := existing, map[];
    }

    /** Moves one root aside and its prepared content in. */
    method PublishRoot(name: string, content: Content, faults: RootFaults) returns (ok: bool)
      requires name !in aside
      modifies this
      ensures ok == !ForwardFails(old(roots), faults, name)
      ensures At(roots, name) == if ok then Some(content) else AfterFailedMove(old(roots), faults, name)
      ensures ok ==> At(aside, name) == At(old(roots), name)
      ensures forall other :: other != name ==> At(roots, other) == At(old(roots), other) && At(aside, other) == At(old(aside), other)
    {
      if name in roots {
        if name in faults.moveAside { return false; }
        aside := aside[name := roots[name]];
        roots := roots - {name};
      }
      if name in faults.moveIn {
        if name in aside && name !in faults.restore {
          roots := roots[name := aside[name]];
          aside := aside - {name};
        }
        return false;
      }
      roots := roots[name := content];
      ok := true;
    }

    /** Undoes one published root. */
    method UndoRoot(name: string, faults: RootFaults, ghost prior: map<string, Content>) returns (ok: bool)
      requires name in roots && At(aside, name) == At(prior, name)
      modifies this
      ensures At(roots, name) == AfterRollback(prior, faults, name)
      ensures ok == !RollbackReported(prior, faults, name)
      ensures forall other :: other != name ==> At(roots, other) == At(old(roots), other) && At(aside, other) == At(old(aside), other)
    {
      if name in faults.discard {
        roots := if name in faults.remains then roots[name := faults.remains[name]] else roots - {name};
        return false;
      }
      roots := roots - {name};
      if name in aside {
        if name in faults.moveBack { return false; }
        roots := roots[name := aside[name]];
        aside := aside - {name};
      }
      ok := true;
    }

    ghost predicate Published(order: seq<string>, prior: map<string, Content>, prepared: map<string, Content>, n: nat)
      requires n <= |order|
      reads this
    {
      && (forall j :: 0 <= j < n ==> At(roots, order[j]) == At(prepared, order[j]) && At(aside, order[j]) == At(prior, order[j]))
      && (forall j :: n <= j < |order| ==> At(roots, order[j]) == At(prior, order[j]) && order[j] !in aside)
    }

    ghost predicate Undone(order: seq<string>, faults: RootFaults, prior: map<string, Content>, k: nat, published: nat)
      requires k <= published <= |order|
      reads this
    {
      && (forall j :: 0 <= j < k ==> order[j] in roots && At(aside, order[j]) == At(prior, order[j]))
      && (forall j :: k <= j < published ==> At(roots, order[j]) == AfterRollback(prior, faults, order[j]))
    }

    twostate predicate OthersKept(order: seq<string>, published: nat)
      requires published <= |order|
      reads this
    {
      forall j :: published <= j < |order| ==> At(roots, order[j]) == At(old(roots), order[j])
    }

    method UndoNext(order: seq<string>, k: nat, published: nat, faults: RootFaults, ghost prior: map<string, Content>)
      returns (ok: bool)
      requires k < published <= |order| && AllDistinct(order)
      requires Undone(order, faults, prior, k + 1, published)
      modifies this
      ensures ok == !RollbackReported(prior, faults, order[k])
      ensures Undone(order, faults, prior, k, published) && OthersKept(order, published)
    {
      ok := UndoRoot(order[k], faults, prior);
      forall j | 0 <= j < |order| && j != k
        ensures At(roots, order[j]) == At(old(roots), order[j]) && At(aside, order[j]) == At(old(aside), order[j])
      {
      }
      assert forall j :: 0 <= j < k ==> order[j] in old(roots) && At(roots, order[j]).Some?;
    }

    /** Undoes the published roots in reverse order. */
    method RollBack(order: seq<string>, published: nat, faults: RootFaults, ghost prior: map<string, Content>)
      returns (failures: seq<string>)
      requires published <= |order| && AllDistinct(order)
      requires forall j :: 0 <= j < published ==> order[j] in roots && At(aside, order[j]) == At(prior, order[j])
      modifies this
      ensures failures == ReportedFailures(order, prior, faults, published)
      ensures forall j :: 0 <= j < published ==> At(roots, order[j]) == AfterRollback(prior, faults, order[j])
      ensures forall j :: published <= j < |order| ==> At(roots, order[j]) == At(old(roots), order[j])
    {
      failures := [];
      var k := published;
      while k > 0
        invariant 0 <= k <= published
        invariant failures + ReportedFailures(order, prior, faults, k) == ReportedFailures(order, prior, faults, published)
        invariant Undone(order, faults, prior, k, published) && OthersKept(order, published)
      {
        k := k - 1;
        var ok := UndoNext(order, k, published, faults, prior);
        assert failures + ([order[k]] + ReportedFailures(order, prior, faults, k))
            == (failures + [order[k]]) + ReportedFailures(order, prior, faults, k);
        if !ok { failures := failures + [order[k]]; }
      }
    }

    /** Removes what the roots held before, in order, up to the first that stays. */
    method RemovePrevious(order: seq<string>, faults: RootFaults, ghost prior: map<string, Content>) returns (left: Option<string>)
      requires AllDistinct(order) && forall k :: 0 <= k < |order| ==> At(aside, order[k]) == At(prior, order[k])
      modifies this`aside
      ensures var k := FirstLeftover(order, prior, faults, 0);
        left == (if k == |order| then None else Some(order[k]))
        && (forall j :: 0 <= j < k ==> order[j] !in aside)
        && (forall j :: k <= j < |order| ==> At(aside, order[j]) == At(prior, order[j]))
    {
      for i := 0 to |order|
        invariant FirstLeftover(order, prior, faults, 0) == FirstLeftover(order, prior, faults, i)
        invariant forall j :: 0 <= j < i ==> order[j] !in aside
        invariant forall j :: i <= j < |order| ==> At(aside, order[j]) == At(prior, order[j])
      {
        assert At(aside, order[i]) == At(prior, order[i]);
        if order[i] in aside {
          if order[i] in faults.remove { return Some(order[i]); }
          aside := aside - {order[i]};
        }
      }
      left := None;
    }

    /** Publishes the roots in order; on a failed rename rolls the earlier ones back. */
    method PublishPreparedRoots(order: seq<string>, prepared: map<string, Content>, faults: RootFaults)
      returns (r: Result<(), PublishError>)
      requires AllDistinct(order) && aside == map[] && forall name :: name in order ==> name in prepared
      modifies this
      ensures forall k :: 0 <= k < |order| ==> At(roots, order[k]) == FinalRoot(order, old(roots), prepared, faults, k)
      ensures var failure, leftover := FirstFailure(order, old(roots), faults, 0), FirstLeftover(order, old(roots), faults, 0);
        r == (if failure < |order| then Err(NotReplaced(ReportedFailures(order, old(roots), faults, failure)))
              else if leftover < |order| then Err(NotRemoved(order[leftover]))
              else Ok(()))
    {
      ghost var prior := roots;
      for i := 0 to |order|
        invariant Published(order, prior, prepared, i)
        invariant forall j :: 0 <= j < i ==> !ForwardFails(prior, faults, order[j])
      {
        var ok := PublishRoot(order[i], prepared[order[i]], faults);
        if !ok {
          assert FirstFailure(order, prior, faults, 0) == i;
          assert forall j :: 0 <= j < i ==> order[j] in prepared && At(roots, order[j]) == At(prepared, order[j]);
          var failures := RollBack(order, i, faults, prior);
          return Err(NotReplaced(failures));
        }
      }
      assert FirstFailure(order, prior, faults, 0) == |order|;
      var left := RemovePrevious(order, faults, prior);
      r := if left.Some? then Err(NotRemoved(left.value)) else Ok(());
    }
  }

  /** Some recovery operation that is attempted fails. */
  ghost predicate RecoveryFails(order: seq<string>, prior: map<string, Content>, faults: RootFaults) {
    var failure := FirstFailure(order, prior, faults, 0);
    exists k :: 0 <= k < |order| && k <= failure && RootRecoveryFails(order, prior, faults, k, failure)
  }

  predicate RootRecoveryFails(order: seq<string>, prior: map<string, Content>, faults: RootFaults, k: nat, failure: nat)
    requires k < |order|
  {
    if k < failure then RollbackReported(prior, faults, order[k])
    else order[k] in prior && order[k] !in faults.moveAside && order[k] in faults.restore
  }

  /** A failed publication restores every root to its prior content or absence if
      and only if no recovery operation fails. */
  lemma AllOrNothing(order: seq<string>, prior: map<string, Content>, prepared: map<string, Content>, faults: RootFaults)
    requires FirstFailure(order, prior, faults, 0) < |order|
    requires forall name :: name in faults.discard ==> At(faults.remains, name) != At(prior, name)
    ensures (forall k :: 0 <= k < |order| ==> FinalRoot(order, prior, prepared, faults, k) == At(prior, order[k]))
      <==> !RecoveryFails(order, prior, faults)
  {
    var failure := FirstFailure(order, prior, faults, 0);
    forall k | 0 <= k < |order|
      ensures FinalRoot(order, prior, prepared, faults, k) == At(prior, order[k])
        <==> !(k <= failure && RootRecoveryFails(order, prior, faults, k, failure))
    {
    }
  }

  lemma {:induction false} ReportedRoots(order: seq<string>, prior: map<string, Content>, faults: RootFaults, k: nat, name: string)
    requires k <= |order|
    ensures name in ReportedFailures(order, prior, faults, k) <==>
      exists j :: 0 <= j < k && order[j] == name && RollbackReported(prior, faults, name)
  {
    if k > 0 { ReportedRoots(order, prior, faults, k - 1, name); }
  }

  /** The error names every root that was not restored, except the one whose own
      rename failed: when that root cannot be moved back it is lost unreported. */
  lemma UnreportedRoot(order: seq<string>, prior: map<string, Content>, prepared: map<string, Content>, faults: RootFaults)
    requires AllDistinct(order) && FirstFailure(order, prior, faults, 0) < |order|
    ensures var failure := FirstFailure(order, prior, faults, 0);
      (forall k :: 0 <= k < |order| && FinalRoot(order, prior, prepared, faults, k) != At(prior, order[k]) ==>
         order[k] in ReportedFailures(order, prior, faults, failure))
      <==> !RootRecoveryFails(order, prior, faults, failure, failure)
  {
    var failure := FirstFailure(order, prior, faults, 0);
    forall k | 0 <= k < |order| ensures order[k] in ReportedFailures(order, prior, faults, failure)
      <==> k < failure && RollbackReported(prior, faults, order[k])
    {
      ReportedRoots(order, prior, faults, failure, order[k]);
    }
  }

  // Adapted content paths

  datatype PlanError = SiteIsFile | Collision(prior: Path, source: Path)

  const PAGE_EXTENSIONS: set<string> := {".adoc", ".asciidoc", ".htm", ".html", ".markdown", ".md", ".mdx"}

  /** The position of the last dot, if the name has one. */
  function LastDot(name: string): Option<nat> {
    if name == "" then None
    else if name[|name| - 1] == '.' then Some(|name| - 1)
    else LastDot(name[..|name| - 1])
  }

  lemma {:induction false} LastDotInRange(name: string)
    ensures LastDot(name).Some? ==> LastDot(name).value < |name|
  {
    if name != "" { LastDotInRange(name[..|name| - 1]); }
  }

  /** PurePath.suffix: from the last dot, unless the name starts or ends with it. */
  function Suffix(name: string): string {
    var dot := LastDot(name);
    LastDotInRange(name);
    if dot.Some? && 0 < dot.value < |name| - 1 then name[dot.value..] else ""
  }

  function Stem(name: string): string {
    var dot := LastDot(name);
    LastDotInRange(name);
    if dot.Some? && 0 < dot.value < |name| - 1 then name[..dot.value] else name
  }

  function RenameIndex(p: Path, fold: char -> string): Path
    requires p != []
  {
    var name := p[|p| - 1];
    if Stem(name) == "_index" && Fold(fold, Suffix(name)) in PAGE_EXTENSIONS
    then p[..|p| - 1] + ["index" + Suffix(name)] else p
  }

  predicate IsSiteFile(file: Path) { file == ["site"] }

  /** Where a staged content file goes in the Roq project. */
  function Adapt(file: Path, fold: char -> string): Path
    requires file != [] && !IsSiteFile(file)
  {
    RenameIndex(if file[0] == "site" then file[1..] else file, fold)
  }

  function CollisionKey(file: Path, fold: char -> string): string
    requires file != [] && !IsSiteFile(file)
  {
    Fold(fold, Join(Adapt(file, fold)))
  }

  predicate FileLe(a: Path, b: Path) { StringLe(Join(a), Join(b)) }

  function SetOf(files: seq<Path>): set<Path> { set f | f in files }

  predicate Placeable(f: Path) { f != [] && !IsSiteFile(f) }

  /** Every file is planned to its adapted path, and nothing else is planned. */
  ghost predicate IsPlan(files: set<Path>, fold: char -> string, plan: map<Path, Path>) {
    && (forall f :: f in files ==> IsPlanned(f, fold, plan))
    && (forall p :: p in plan ==> plan[p] in files && AdaptsTo(plan[p], fold, p))
  }

  predicate IsPlanned(f: Path, fold: char -> string, plan: map<Path, Path>) {
    Placeable(f) && Adapt(f, fold) in plan && plan[Adapt(f, fold)] == f
  }

  predicate AdaptsTo(f: Path, fold: char -> string, p: Path) { Placeable(f) && Adapt(f, fold) == p }

  predicate Collide(files: set<Path>, fold: char -> string, f: Path, g: Path) {
    && f in files && g in files && f != g && Placeable(f) && Placeable(g)
    && CollisionKey(f, fold) == CollisionKey(g, fold)
  }

  /** Two files collide up to case, or a file stands where the site directory belongs. */
  ghost predicate Unplannable(files: set<Path>, fold: char -> string) {
    (exists f :: f in files && !Placeable(f)) || exists f, g :: Collide(files, fold, f, g)
  }

  ghost predicate KeysTrack(files: set<Path>, fold: char -> string, sources: map<string, Path>) {
    && (forall f :: f in files ==> Placeable(f) && CollisionKey(f, fold) in sources && sources[CollisionKey(f, fold)] == f)
    && (forall key :: key in sources ==> IsSource(files, fold, key, sources[key]))
  }

  predicate IsSource(files: set<Path>, fold: char -> string, key: string, f: Path) {
    f in files && Placeable(f) && CollisionKey(f, fold) == key
  }

  /** Plans every file, or reports why one cannot be placed. */
  method PlanRoqContent(files: seq<Path>, fold: char -> string) returns (r: Result<map<Path, Path>, PlanError>)
    requires AllDistinct(files) && [] !in files
    ensures r.Ok? <==> !Unplannable(SetOf(files), fold)
    ensures r.Ok? ==> IsPlan(SetOf(files), fold, r.value)
    ensures r.Err? && r.error.Collision? ==> Collide(SetOf(files), fold, r.error.prior, r.error.source)
  {
    var ordered := StableSort(files, FileLe);
    SortIsPermutation(files, FileLe);
    SortedDistinct(files, ordered);
    r := PlanInOrder(ordered, fold);
  }

  lemma SortedDistinct(files: seq<Path>, ordered: seq<Path>)
    requires AllDistinct(files) && multiset(files) == multiset(ordered)
    ensures AllDistinct(ordered) && SetOf(files) == SetOf(ordered) && ([] in ordered ==> [] in files)
  {
    forall f ensures f in files <==> f in ordered { assert f in multiset(files) <==> f in multiset(ordered); }
    PermutationKeepsDistinct(files, ordered);
  }

  method PlanInOrder(ordered: seq<Path>, fold: char -> string) returns (r: Result<map<Path, Path>, PlanError>)
    requires AllDistinct(ordered) && [] !in ordered
    ensures r.Ok? <==> !Unplannable(SetOf(ordered), fold)
    ensures r.Ok? ==> IsPlan(SetOf(ordered), fold, r.value)
    ensures r.Err? && r.error.Collision? ==> Collide(SetOf(ordered), fold, r.error.prior, r.error.source)
  {
    var plan: map<Path, Path> := map[];
    var sources: map<string, Path> := map[];
    for i := 0 to |ordered|
      invariant IsPlan(SetOf(ordered[..i]), fold, plan) && KeysTrack(SetOf(ordered[..i]), fold, sources)
    {
      var f := ordered[i];
      if IsSiteFile(f) {
        assert f in SetOf(ordered) && !Placeable(f);
        return Err(SiteIsFile);
      }
      var key := CollisionKey(f, fold);
      if key in sources {
        assert IsSource(SetOf(ordered[..i]), fold, key, sources[key]);
        assert Collide(SetOf(ordered), fold, sources[key], f);
        return Err(Collision(sources[key], f));
      }
      assert SetOf(ordered[..i + 1]) == SetOf(ordered[..i]) + {f};
      KeysGrow(SetOf(ordered[..i]), f, fold, sources);
      TargetIsNew(SetOf(ordered[..i]), f, fold, plan, sources);
      PlanGrows(SetOf(ordered[..i]), f, fold, plan, Adapt(f, fold));
      sources := sources[key := f];
      plan := plan[Adapt(f, fold) := f];
    }
    assert ordered[..|ordered|] == ordered;
    r := Ok(plan);
  }

  lemma KeysGrow(files: set<Path>, f: Path, fold: char -> string, sources: map<string, Path>)
    requires Placeable(f) && KeysTrack(files, fold, sources) && CollisionKey(f, fold) !in sources
    ensures KeysTrack(files + {f}, fold, sources[CollisionKey(f, fold) := f])
  {
    var more := sources[CollisionKey(f, fold) := f];
    forall key | key in more ensures IsSource(files + {f}, fold, key, more[key]) {
      if key in sources { assert IsSource(files, fold, key, sources[key]); }
    }
  }

  lemma TargetIsNew(files: set<Path>, f: Path, fold: char -> string, plan: map<Path, Path>, sources: map<string, Path>)
    requires Placeable(f) && IsPlan(files, fold, plan) && KeysTrack(files, fold, sources)
    requires CollisionKey(f, fold) !in sources
    ensures Adapt(f, fold) !in plan
  {
    forall p | p in plan ensures Fold(fold, Join(p)) in sources && p != Adapt(f, fold) {
      assert AdaptsTo(plan[p], fold, p) && CollisionKey(plan[p], fold) in sources;
    }
  }

  lemma PlanGrows(files: set<Path>, f: Path, fold: char -> string, plan: map<Path, Path>, target: Path)
    requires IsPlan(files, fold, plan) && target !in plan && AdaptsTo(f, fold, target)
    ensures IsPlan(files + {f}, fold, plan[target := f])
  {
    forall g | g in files + {f} ensures IsPlanned(g, fold, plan[target := f]) {
      if g in files { assert IsPlanned(g, fold, plan); }
    }
  }

  /** The plan loses no file and writes none twice. */
  lemma PlanIsBijective(files: set<Path>, fold: char -> string, plan: map<Path, Path>, f: Path, g: Path)
    requires IsPlan(files, fold, plan) && f in files && g in files
    ensures Adapt(f, fold) == Adapt(g, fold) <==> f == g
    ensures plan.Values == files
  {
    assert IsPlanned(f, fold, plan) && IsPlanned(g, fold, plan);
    forall x | x in files ensures x in plan.Values {
      assert IsPlanned(x, fold, plan);
      assert plan[Adapt(x, fold)] == x;
    }
  }

  // Where files go

  lemma {:induction false} LastDotIsLast(name: string)
    ensures var dot := LastDot(name);
      if dot.Some? then dot.value < |name| && name[dot.value] == '.' && '.' !in name[dot.value + 1..] else '.' !in name
  {
    if name != "" && name[|name| - 1] != '.' {
      var front := name[..|name| - 1];
      LastDotIsLast(front);
      assert name == front + [name[|name| - 1]];
      if LastDot(front).Some? { assert name[LastDot(front).value + 1..] == front[LastDot(front).value + 1..] + [name[|name| - 1]]; }
    }
  }

  predicate IsExtension(e: string) { e != "" && '.' !in e }

  lemma OneLastDot(name: string, i: nat, j: nat)
    requires i < |name| && name[i] == '.' && '.' !in name[i + 1..]
    requires j < |name| && name[j] == '.' && '.' !in name[j + 1..]
    ensures i == j
  {
    assert forall k :: i < k < |name| ==> name[k] in name[i + 1..];
    assert forall k :: j < k < |name| ==> name[k] in name[j + 1..];
  }

  /** A name split at its last dot. */
  lemma StemAndSuffix(a: string, e: string)
    requires a != "" && IsExtension(e)
    ensures Stem(a + "." + e) == a && Suffix(a + "." + e) == "." + e
  {
    var name := a + "." + e;
    LastDotIsLast(name);
    assert name[|a|] == '.' && name[|a| + 1..] == e;
    OneLastDot(name, |a|, LastDot(name).value);
    assert name[..|a|] == a && name[|a|..] == "." + e;
  }

  /** The extension of a page, in any letter case. */
  predicate IsPageExtension(e: string, fold: char -> string) {
    Fold(fold, "." + e) in {".adoc", ".asciidoc", ".htm", ".html", ".markdown", ".md", ".mdx"}
  }

  /** The index page of a directory loses its underscore, and the content of the site
      moves up one directory. */
  lemma IndexPageMoves(dir: Path, e: string, fold: char -> string)
    requires IsExtension(e) && IsPageExtension(e, fold)
    ensures Adapt(["site"] + dir + ["_index." + e], fold) == dir + ["index." + e]
    ensures dir == [] || dir[0] != "site" ==> Adapt(dir + ["_index." + e], fold) == dir + ["index." + e]
  {
    var name := "_index." + e;
    assert name == "_index" + "." + e;
    StemAndSuffix("_index", e);
    var p := dir + [name];
    assert p[..|p| - 1] == dir && "index" + ("." + e) == "index." + e;
    assert (["site"] + dir + [name])[1..] == p;
    assert "site"[0] == 's' && name[0] == '_';
  }

  lemma ExtensionsAreTexts(x: string)
    requires x in PAGE_EXTENSIONS
    ensures x != ""
  {
  }

  lemma EmptyFold(s: string, fold: char -> string)
    requires Fold(fold, s) != ""
    ensures s != ""
  {
  }

  lemma HasExtension(name: string, fold: char -> string)
    requires Fold(fold, Suffix(name)) in PAGE_EXTENSIONS
    ensures LastDot(name).Some? && 0 < LastDot(name).value < |name| - 1
  {
    ExtensionsAreTexts(Fold(fold, Suffix(name)));
    EmptyFold(Suffix(name), fold);
  }

  lemma IndexName(name: string, fold: char -> string) returns (e: string)
    requires Stem(name) == "_index" && Fold(fold, Suffix(name)) in PAGE_EXTENSIONS
    ensures name == "_index." + e && IsExtension(e) && IsPageExtension(e, fold)
  {
    LastDotIsLast(name);
    HasExtension(name, fold);
    var dot := LastDot(name).value;
    e := name[dot + 1..];
    assert name[dot..] == "." + e;
    assert name == name[..dot] + name[dot..] && "_index" + ("." + e) == "_index." + e;
  }

  /** Every other file keeps its name. */
  lemma OtherFileStays(dir: Path, name: string, fold: char -> string)
    requires forall e :: IsExtension(e) && name == "_index." + e ==> !IsPageExtension(e, fold)
    ensures Adapt(["site"] + dir + [name], fold) == dir + [name]
    ensures (if dir == [] then name != "site" else dir[0] != "site") ==> Adapt(dir + [name], fold) == dir + [name]
  {
    if Stem(name) == "_index" && Fold(fold, Suffix(name)) in PAGE_EXTENSIONS { var e := IndexName(name, fold); }
    assert (["site"] + dir + [name])[1..] == dir + [name];
  }
}
