/** Changed paths: their coalescing (commands/watch_events.py) and the units they
    make dirty (commands/watch.py). Paths are absolute and resolved. */
module DirtyPaths {
  import opened Options
  import opened Ownership
  import opened Paths
  import opened Plan
  import opened PlanExamples
  import opened Sorting

  // Coalescing

  predicate PathLe(a: Path, b: Path) { if |a| != |b| then |a| < |b| else StringLe(Join(a), Join(b)) }

  /** kept covers exactly what paths covers, without an ancestor of another. */
  ghost predicate Coalesced(paths: seq<Path>, kept: seq<Path>) {
    && (forall k :: k in kept ==> k in paths)
    && (forall p :: p in paths ==> IsCovered(p, kept))
    && (forall i, j :: 0 <= i < |kept| && 0 <= j < |kept| && kept[i] <= kept[j] ==> i == j)
  }

  predicate IsCovered(p: Path, kept: seq<Path>) { exists i :: 0 <= i < |kept| && kept[i] <= p }

  lemma PathOrderIsTotalPreorder()
    ensures TotalPreorder(PathLe)
  {
    StringOrderIsTotalPreorder();
    forall a, b ensures PathLe(a, b) || PathLe(b, a) {
      StringLeTotal(Join(a), Join(b));
    }
    forall a, b, c | PathLe(a, b) && PathLe(b, c) ensures PathLe(a, c) {
      if |a| == |b| == |c| { StringLeTransitive(Join(a), Join(b), Join(c)); }
    }
  }

  ghost predicate CoalescedPrefix(ordered: seq<Path>, i: nat, kept: seq<Path>)
    requires i <= |ordered|
  {
    && Coalesced(ordered[..i], kept)
    && (forall k, j :: 0 <= k < |kept| && i <= j < |ordered| ==> |kept[k]| <= |ordered[j]|)
  }

  method CoalesceDirtyPaths(paths: seq<Path>) returns (kept: seq<Path>)
    ensures Coalesced(paths, kept)
  {
    var unique := Dedup(paths);
    DedupKeepsRoots(paths);
    var ordered := StableSort(unique, PathLe);
    SortIsPermutation(unique, PathLe);
    PathOrderIsTotalPreorder();
    SortIsSorted(unique, PathLe);
    kept := [];
    for i := 0 to |ordered|
      invariant CoalescedPrefix(ordered, i, kept)
    {
      if !IsCovered(ordered[i], kept) {
        KeepPath(ordered, i, kept);
        kept := kept + [ordered[i]];
      } else {
        SkipPath(ordered, i, kept);
      }
    }
    assert ordered[..|ordered|] == ordered;
    assert forall p :: p in paths <==> p in ordered;
  }

  lemma KeepPath(ordered: seq<Path>, i: nat, kept: seq<Path>)
    requires i < |ordered| && Sorted(ordered, PathLe) && CoalescedPrefix(ordered, i, kept) && !IsCovered(ordered[i], kept)
    ensures CoalescedPrefix(ordered, i + 1, kept + [ordered[i]])
  {
    var next, more := ordered[i], kept + [ordered[i]];
    assert ordered[..i + 1] == ordered[..i] + [next];
    forall p | p in ordered[..i + 1] ensures IsCovered(p, more) {
      if p in ordered[..i] {
        var k :| 0 <= k < |kept| && kept[k] <= p;
        assert more[k] <= p;
      } else {
        assert more[|kept|] <= p;
      }
    }
    forall k | 0 <= k < |kept| ensures !(next <= kept[k]) {
      assert |kept[k]| <= |next| && !(kept[k] <= next);
    }
  }

  lemma SkipPath(ordered: seq<Path>, i: nat, kept: seq<Path>)
    requires i < |ordered| && CoalescedPrefix(ordered, i, kept) && IsCovered(ordered[i], kept)
    ensures CoalescedPrefix(ordered, i + 1, kept)
  {
    assert ordered[..i + 1] == ordered[..i] + [ordered[i]];
  }

  /** The result is determined: it holds exactly the paths without a listed proper ancestor. */
  lemma CoalescedIsMinimal(paths: seq<Path>, kept: seq<Path>, p: Path)
    requires Coalesced(paths, kept)
    ensures p in kept <==> p in paths && forall q :: q in paths && q <= p ==> q == p
  {
    if p in kept {
      var j :| 0 <= j < |kept| && kept[j] == p;
      forall q | q in paths && q <= p ensures q == p {
        var i :| 0 <= i < |kept| && kept[i] <= q;
        assert kept[i] <= kept[j];
      }
    } else if p in paths {
      var i :| 0 <= i < |kept| && kept[i] <= p;
      assert kept[i] in paths;
    }
  }

  // Attribution to units

  datatype Layout = Layout(workspace: Path, siteRoot: Path, catalog: Path, provider: Option<Path>)

  predicate MatchesStageInput(path: Path, root: Option<Path>) { root.Some? && root.value <= path }

  predicate MatchesAny(path: Path, roots: seq<Path>) { exists i :: 0 <= i < |roots| && roots[i] <= path }

  function ComponentInputs(c: Component): seq<Path> {
    One(c.metadataFile) + One(c.pagesRoot) + One(c.assetsRoot) + One(c.contentSource)
  }

  function One(root: Option<Path>): seq<Path> { if root.Some? then [root.value] else [] }

  predicate ComponentMatches(path: Path, c: Component) {
    || MatchesStageInput(path, c.metadataFile) || MatchesStageInput(path, c.pagesRoot)
    || MatchesStageInput(path, c.assetsRoot) || MatchesStageInput(path, c.contentSource)
  }

  /** The first component one of whose inputs holds the path, from position i on. */
  function DirtyComponentFrom(components: seq<Component>, i: nat, path: Path): Option<string>
    requires i <= |components|
    decreases |components| - i
  {
    if i == |components| then None
    else if ComponentMatches(path, components[i]) then Some(ComponentId(components[i].slug))
    else DirtyComponentFrom(components, i + 1, path)
  }

  method DirtyComponentUnitId(components: seq<Component>, path: Path) returns (id: Option<string>)
    ensures id == DirtyComponentFrom(components, 0, path)
  {
    for i := 0 to |components|
      invariant DirtyComponentFrom(components, 0, path) == DirtyComponentFrom(components, i, path)
    {
      if ComponentMatches(path, components[i]) { return Some(ComponentId(components[i].slug)); }
    }
    id := None;
  }

  datatype Attribution = Everything | Just(ids: set<string>)

  predicate IsConfiguration(layout: Layout, path: Path) { path == layout.catalog || Some(path) == layout.provider }

  /** What one changed path makes dirty. */
  function Attribute(layout: Layout, plan: BuildPlan, current: set<string>, path: Path): Attribution {
    if IsConfiguration(layout, path) then Everything
    else if MatchesStageInput(path, plan.sitePagesRoot) && SITE_PAGES.id in current then Just({SITE_PAGES.id})
    else if MatchesStageInput(path, plan.siteAssetsRoot) && SITE_ASSETS.id in current then Just({SITE_ASSETS.id})
    else if MatchesAny(path, plan.vendorSources) then Just({VENDOR_ASSETS.id} * current)
    else
      var component := DirtyComponentFrom(plan.components, 0, path);
      if component.Some? && component.value in current then Just({component.value})
      else if layout.siteRoot <= path || layout.workspace <= path then Everything
      else Just({})
  }

  predicate AnyEverything(layout: Layout, plan: BuildPlan, current: set<string>, paths: seq<Path>) {
    exists i :: 0 <= i < |paths| && Attribute(layout, plan, current, paths[i]).Everything?
  }

  predicate SomeAttributes(layout: Layout, plan: BuildPlan, current: set<string>, paths: seq<Path>, id: string) {
    exists i :: 0 <= i < |paths|
      && Attribute(layout, plan, current, paths[i]).Just? && id in Attribute(layout, plan, current, paths[i]).ids
  }

  function DirtyUnits(layout: Layout, plan: BuildPlan, current: set<string>, paths: seq<Path>): set<string> {
    if paths == [] || AnyEverything(layout, plan, current, paths) then current
    else set id | id in current && SomeAttributes(layout, plan, current, paths, id)
  }

  /** The scan stops at the first path that dirties everything; its result does
      not depend on where that path stands in the list. */
  method DirtyUnitIdsForPaths(layout: Layout, plan: BuildPlan, current: set<string>, paths: seq<Path>) returns (dirty: set<string>)
    ensures dirty == DirtyUnits(layout, plan, current, paths)
  {
    if paths == [] { return current; }
    dirty := {};
    for i := 0 to |paths|
      invariant !AnyEverything(layout, plan, current, paths[..i])
      invariant dirty == set id | id in current && SomeAttributes(layout, plan, current, paths[..i], id)
    {
      var path := paths[i];
      ghost var attribution := Attribute(layout, plan, current, path);
      AttributeNext(layout, plan, current, paths, i);
      if IsConfiguration(layout, path) { return current; }
      if MatchesStageInput(path, plan.sitePagesRoot) && SITE_PAGES.id in current {
        dirty := dirty + {SITE_PAGES.id};
        continue;
      }
      if MatchesStageInput(path, plan.siteAssetsRoot) && SITE_ASSETS.id in current {
        dirty := dirty + {SITE_ASSETS.id};
        continue;
      }
      if MatchesAny(path, plan.vendorSources) {
        if VENDOR_ASSETS.id in current { dirty := dirty + {VENDOR_ASSETS.id}; }
        continue;
      }
      var component := DirtyComponentUnitId(plan.components, path);
      if component.Some? && component.value in current {
        dirty := dirty + {component.value};
        continue;
      }
      if layout.siteRoot <= path { return current; }
      if layout.workspace <= path { return current; }
    }
    assert paths[..|paths|] == paths;
  }

  lemma AttributeNext(layout: Layout, plan: BuildPlan, current: set<string>, paths: seq<Path>, i: nat)
    requires i < |paths|
    ensures var next := Attribute(layout, plan, current, paths[i]);
      && (next.Everything? ==> AnyEverything(layout, plan, current, paths))
      && (AnyEverything(layout, plan, current, paths[..i + 1]) == (AnyEverything(layout, plan, current, paths[..i]) || next.Everything?))
      && (forall id :: SomeAttributes(layout, plan, current, paths[..i + 1], id)
            == (SomeAttributes(layout, plan, current, paths[..i], id) || (next.Just? && id in next.ids)))
  {
    assert paths[..i + 1] == paths[..i] + [paths[i]];
    assert forall k :: 0 <= k < i ==> paths[..i + 1][k] == paths[..i][k];
    assert paths[..i + 1][i] == paths[i];
  }

  // Completeness

  /** A unit as a changed path meets it: the roots the scan tests, and the roots its worker reads. */
  datatype UnitRoots = UnitRoots(id: string, tested: seq<Path>, sources: seq<Path>)

  function Subtree(root: Path, kind: string, name: string): Path { root + [kind] + DropDots(Split(name)) }

  /** Where a version context lies beneath a docs or assets root. */
  function SourceRootOf(root: Path, c: Context): Path {
    if c.kind == Released && c.version.Some? then Subtree(root, "releases", c.version.value)
    else if c.kind == Candidate && c.version.Some? then Subtree(root, "candidates", c.version.value)
    else if c.kind == LineHead && c.releaseLine.Some? then Subtree(root, "maintenance", c.releaseLine.value)
    else if c.kind == NamedRef && c.namedRef.Some? then Subtree(root, "refs", c.namedRef.value)
    else root
  }

  function ContextSource(c: Context): seq<Path> {
    [SourceRootOf(c.docsRoot, c)] + if c.assetsRoot.Some? then [SourceRootOf(c.assetsRoot.value, c)] else []
  }

  /** The docs and assets of the version contexts of one component. */
  function ContextSources(contexts: seq<Context>, slug: string): seq<Path> {
    if contexts == [] then []
    else
      var last := contexts[|contexts| - 1];
      ContextSources(contexts[..|contexts| - 1], slug) + if last.slug == slug then ContextSource(last) else []
  }

  /** A component reads its metadata, pages and assets and the sources of its version
      contexts, which may belong to any source binding; its content source is only tested. */
  function ComponentRoots(c: Component, contexts: seq<Context>): UnitRoots {
    UnitRoots(ComponentId(c.slug), ComponentInputs(c),
            One(c.metadataFile) + One(c.pagesRoot) + One(c.assetsRoot) + ContextSources(contexts, c.slug))
  }

  /** The units in the order the scan tries them. */
  function Scanned(plan: BuildPlan): seq<UnitRoots> {
    [UnitRoots(SITE_PAGES.id, One(plan.sitePagesRoot), One(plan.sitePagesRoot)),
     UnitRoots(SITE_ASSETS.id, One(plan.siteAssetsRoot), One(plan.siteAssetsRoot)),
     UnitRoots(VENDOR_ASSETS.id, plan.vendorSources, plan.vendorSources)]
    + seq(|plan.components|, i requires 0 <= i < |plan.components| => ComponentRoots(plan.components[i], plan.contexts))
  }

  predicate TestedBy(w: UnitRoots, id: string, root: Path) { w.id == id && root in w.tested }

  predicate SourceOf(w: UnitRoots, id: string, root: Path) { w.id == id && root in w.sources }

  /** The scan tests this root for the unit. */
  ghost predicate Tested(plan: BuildPlan, id: string, root: Path) {
    exists i :: 0 <= i < |Scanned(plan)| && TestedBy(Scanned(plan)[i], id, root)
  }

  /** What the unit produces depends on this root: a source of its own, or the configuration. */
  ghost predicate Reads(layout: Layout, plan: BuildPlan, id: string, root: Path) {
    IsConfiguration(layout, root) || exists i :: 0 <= i < |Scanned(plan)| && SourceOf(Scanned(plan)[i], id, root)
  }

  /** A change at or beneath path may change what the unit produces. */
  ghost predicate Feeds(layout: Layout, plan: BuildPlan, id: string, path: Path) {
    exists root :: Reads(layout, plan, id, root) && Comparable(root, path)
  }

  /** No root tested for one unit meets what another current unit reads. */
  ghost predicate InputsApart(layout: Layout, plan: BuildPlan, current: set<string>) {
    forall id, other, r, s :: other in current && Tested(plan, id, r) && Reads(layout, plan, other, s) && Comparable(r, s) ==> id == other
  }

  predicate InTree(layout: Layout, path: Path) { layout.siteRoot <= path || layout.workspace <= path }

  /** Where the watcher reports changes that matter: the site, the workspace, the
      configuration and the tested roots. */
  ghost predicate InScope(layout: Layout, plan: BuildPlan, path: Path) {
    InTree(layout, path) || IsConfiguration(layout, path) || exists id, root :: Tested(plan, id, root) && root <= path
  }

  predicate HoldsAt(units: seq<UnitRoots>, path: Path, i: nat)
    requires i < |units|
  {
    MatchesAny(path, units[i].tested)
  }

  /** This unit, and none the scan tries earlier, is tested for a root that holds the path. */
  ghost predicate HoldsFirst(plan: BuildPlan, id: string, path: Path) { FirstHolder(Scanned(plan), id, path) }

  ghost predicate FirstHolder(units: seq<UnitRoots>, id: string, path: Path) {
    exists i :: 0 <= i < |units| && units[i].id == id && FirstAt(units, path, i)
  }

  ghost predicate FirstAt(units: seq<UnitRoots>, path: Path, i: nat)
    requires i < |units|
  {
    HoldsAt(units, path, i) && HeldByNone(units, path, i)
  }

  /** None of the first n units holds the path. */
  ghost predicate HeldByNone(units: seq<UnitRoots>, path: Path, n: nat)
    requires n <= |units|
  {
    forall j :: 0 <= j < n ==> !HoldsAt(units, path, j)
  }

  ghost predicate CurrentIds(plan: BuildPlan, current: set<string>) {
    current == set u | u in PlannedUnits(plan) :: u.id
  }

  lemma CurrentSiteUnits(plan: BuildPlan, current: set<string>)
    requires CurrentIds(plan, current)
    ensures plan.sitePagesRoot.Some? ==> SITE_PAGES.id in current
    ensures plan.siteAssetsRoot.Some? ==> SITE_ASSETS.id in current
    ensures plan.vendorSources != [] ==> VENDOR_ASSETS.id in current
  {
    assert plan.sitePagesRoot.Some? ==> SITE_PAGES in PlannedUnits(plan);
    assert plan.siteAssetsRoot.Some? ==> SITE_ASSETS in PlannedUnits(plan);
    assert plan.vendorSources != [] ==> VENDOR_ASSETS in PlannedUnits(plan);
  }

  lemma MatchesOne(path: Path, root: Option<Path>)
    ensures MatchesAny(path, One(root)) <==> MatchesStageInput(path, root)
  {
    assert root.Some? ==> One(root)[0] == root.value;
  }

  lemma MatchesBoth(path: Path, a: seq<Path>, b: seq<Path>)
    ensures MatchesAny(path, a + b) <==> MatchesAny(path, a) || MatchesAny(path, b)
  {
    if i :| 0 <= i < |a| && a[i] <= path { assert (a + b)[i] <= path; }
    if i :| 0 <= i < |b| && b[i] <= path { assert (a + b)[|a| + i] <= path; }
  }

  lemma InputsOfComponent(c: Component, path: Path)
    ensures ComponentMatches(path, c) <==> MatchesAny(path, ComponentInputs(c))
  {
    MatchesOne(path, c.metadataFile);
    MatchesOne(path, c.pagesRoot);
    MatchesOne(path, c.assetsRoot);
    MatchesOne(path, c.contentSource);
    MatchesBoth(path, One(c.metadataFile), One(c.pagesRoot));
    MatchesBoth(path, One(c.metadataFile) + One(c.pagesRoot), One(c.assetsRoot));
    MatchesBoth(path, One(c.metadataFile) + One(c.pagesRoot) + One(c.assetsRoot), One(c.contentSource));
  }

  /** The listed units follow the guards of the scan. */
  ghost predicate FollowsScan(units: seq<UnitRoots>, plan: BuildPlan, path: Path) {
    && |units| == |plan.components| + 3
    && units[0].id == SITE_PAGES.id && (HoldsAt(units, path, 0) <==> MatchesStageInput(path, plan.sitePagesRoot))
    && units[1].id == SITE_ASSETS.id && (HoldsAt(units, path, 1) <==> MatchesStageInput(path, plan.siteAssetsRoot))
    && units[2].id == VENDOR_ASSETS.id && (HoldsAt(units, path, 2) <==> MatchesAny(path, plan.vendorSources))
    && forall i :: 0 <= i < |plan.components| ==> FollowsComponent(units[i + 3], plan.components[i], path)
  }

  predicate FollowsComponent(w: UnitRoots, c: Component, path: Path) {
    w.id == ComponentId(c.slug) && (MatchesAny(path, w.tested) <==> ComponentMatches(path, c))
  }

  lemma ScannedFollowsScan(plan: BuildPlan, path: Path)
    ensures FollowsScan(Scanned(plan), plan, path)
  {
    MatchesOne(path, plan.sitePagesRoot);
    MatchesOne(path, plan.siteAssetsRoot);
    forall i | 0 <= i < |plan.components| ensures FollowsComponent(Scanned(plan)[i + 3], plan.components[i], path) {
      InputsOfComponent(plan.components[i], path);
      assert Scanned(plan)[i + 3] == ComponentRoots(plan.components[i], plan.contexts);
    }
  }

  /** The component the scan finds is the first that holds the path. */
  lemma {:induction false} DirtyComponentIsFirst(units: seq<UnitRoots>, plan: BuildPlan, i: nat, path: Path)
    requires FollowsScan(units, plan, path) && i <= |plan.components| && HeldByNone(units, path, i + 3)
    ensures var found := DirtyComponentFrom(plan.components, i, path);
      if found.Some? then FirstHolder(units, found.value, path) else HeldByNone(units, path, |units|)
    decreases |plan.components| - i
  {
    if i < |plan.components| {
      assert FollowsComponent(units[i + 3], plan.components[i], path);
      if ComponentMatches(path, plan.components[i]) {
        assert FirstAt(units, path, i + 3);
      } else {
        DirtyComponentIsFirst(units, plan, i + 1, path);
      }
    }
  }

  /** The unit the guards of the scan settle on. */
  function Holder(plan: BuildPlan, path: Path): Option<string> {
    if MatchesStageInput(path, plan.sitePagesRoot) then Some(SITE_PAGES.id)
    else if MatchesStageInput(path, plan.siteAssetsRoot) then Some(SITE_ASSETS.id)
    else if MatchesAny(path, plan.vendorSources) then Some(VENDOR_ASSETS.id)
    else DirtyComponentFrom(plan.components, 0, path)
  }

  lemma HolderIsFirst(units: seq<UnitRoots>, plan: BuildPlan, path: Path)
    requires FollowsScan(units, plan, path)
    ensures var holder := Holder(plan, path);
      if holder.Some? then FirstHolder(units, holder.value, path) else HeldByNone(units, path, |units|)
  {
    if HoldsAt(units, path, 0) {
      assert FirstAt(units, path, 0);
    } else if HoldsAt(units, path, 1) {
      assert FirstAt(units, path, 1);
    } else if HoldsAt(units, path, 2) {
      assert FirstAt(units, path, 2);
    } else {
      DirtyComponentIsFirst(units, plan, 0, path);
    }
  }

  lemma FirstIsUnique(units: seq<UnitRoots>, path: Path, id: string, other: string)
    requires FirstHolder(units, id, path) && FirstHolder(units, other, path)
    ensures other == id
  {
    var i :| 0 <= i < |units| && units[i].id == id && FirstAt(units, path, i);
    var j :| 0 <= j < |units| && units[j].id == other && FirstAt(units, path, j);
    if i < j || j < i { assert false; }
  }

  /** The guards settle on the unit that holds the path first. */
  lemma HolderHoldsFirst(plan: BuildPlan, path: Path, id: string)
    ensures HoldsFirst(plan, id, path) <==> Holder(plan, path) == Some(id)
  {
    ScannedFollowsScan(plan, path);
    HolderIsFirst(Scanned(plan), plan, path);
    var holder := Holder(plan, path);
    if holder.Some? && HoldsFirst(plan, id, path) { FirstIsUnique(Scanned(plan), path, holder.value, id); }
  }

  lemma AttributeByHolder(layout: Layout, plan: BuildPlan, current: set<string>, path: Path)
    requires CurrentIds(plan, current)
    ensures var holder := Holder(plan, path);
      Attribute(layout, plan, current, path)
      == (if IsConfiguration(layout, path) then Everything
          else if holder.Some? && holder.value in current then Just({holder.value})
          else if InTree(layout, path) then Everything
          else Just({}))
  {
    CurrentSiteUnits(plan, current);
    assert MatchesAny(path, plan.vendorSources) ==> VENDOR_ASSETS.id in current;
    assert VENDOR_ASSETS.id in current ==> {VENDOR_ASSETS.id} * current == {VENDOR_ASSETS.id};
  }

  lemma DirtyUnitsOfOne(layout: Layout, plan: BuildPlan, current: set<string>, path: Path)
    ensures DirtyUnits(layout, plan, current, [path])
      == (if Attribute(layout, plan, current, path).Everything? then current
          else Attribute(layout, plan, current, path).ids * current)
  {
    var a := Attribute(layout, plan, current, path);
    assert [path][0] == path && Attribute(layout, plan, current, [path][0]) == a;
    assert AnyEverything(layout, plan, current, [path]) <==> a.Everything?;
    assert forall id :: SomeAttributes(layout, plan, current, [path], id) <==> a.Just? && id in a.ids;
  }

  /** One path makes dirty everything, or the current unit that holds it first, or nothing. */
  lemma DirtyByHolder(layout: Layout, plan: BuildPlan, current: set<string>, path: Path, id: string)
    requires CurrentIds(plan, current) && id in current
    ensures id in DirtyUnits(layout, plan, current, [path])
      <==> (IsConfiguration(layout, path) || HoldsFirst(plan, id, path)
            || (InTree(layout, path) && forall other :: other in current ==> !HoldsFirst(plan, other, path)))
  {
    AttributeByHolder(layout, plan, current, path);
    DirtyUnitsOfOne(layout, plan, current, path);
    forall other ensures HoldsFirst(plan, other, path) <==> Holder(plan, path) == Some(other) { HolderHoldsFirst(plan, path, other); }
  }

  /** A changed path makes every unit it feeds dirty if and only if it is a
      configuration file, or lies in the site or the workspace and no current unit
      holds it first, or feeds no current unit but the one that holds it first. */
  lemma AttributionIsExact(layout: Layout, plan: BuildPlan, current: set<string>, path: Path)
    requires CurrentIds(plan, current)
    ensures (forall id :: id in current && Feeds(layout, plan, id, path) ==> id in DirtyUnits(layout, plan, current, [path]))
      <==> (IsConfiguration(layout, path)
            || (InTree(layout, path) && forall id :: id in current ==> !HoldsFirst(plan, id, path))
            || (forall id :: id in current && Feeds(layout, plan, id, path) ==> HoldsFirst(plan, id, path)))
  {
    forall id | id in current
      ensures id in DirtyUnits(layout, plan, current, [path])
        <==> (IsConfiguration(layout, path) || HoldsFirst(plan, id, path)
              || (InTree(layout, path) && forall other :: other in current ==> !HoldsFirst(plan, other, path)))
    {
      DirtyByHolder(layout, plan, current, path, id);
    }
  }

  lemma HoldingRoot(plan: BuildPlan, id: string, path: Path) returns (root: Path)
    requires HoldsFirst(plan, id, path)
    ensures Tested(plan, id, root) && root <= path
  {
    var units := Scanned(plan);
    var i :| 0 <= i < |units| && units[i].id == id && FirstAt(units, path, i);
    var k :| 0 <= k < |units[i].tested| && units[i].tested[k] <= path;
    root := units[i].tested[k];
    assert TestedBy(units[i], id, root);
  }

  lemma HeldByTested(units: seq<UnitRoots>, i: nat, id: string, root: Path, path: Path)
    requires i < |units| && TestedBy(units[i], id, root) && root <= path
    ensures !HeldByNone(units, path, |units|)
  {
    var k :| 0 <= k < |units[i].tested| && units[i].tested[k] == root;
    assert HoldsAt(units, path, i);
  }

  lemma UnheldInScope(layout: Layout, plan: BuildPlan, path: Path)
    requires InScope(layout, plan, path) && Holder(plan, path).None?
    ensures InTree(layout, path) || IsConfiguration(layout, path)
  {
    ScannedFollowsScan(plan, path);
    HolderIsFirst(Scanned(plan), plan, path);
    if id, root :| Tested(plan, id, root) && root <= path {
      var i :| 0 <= i < |Scanned(plan)| && TestedBy(Scanned(plan)[i], id, root);
      HeldByTested(Scanned(plan), i, id, root, path);
    }
  }

  lemma AttributedToFed(layout: Layout, plan: BuildPlan, current: set<string>, path: Path, id: string)
    requires CurrentIds(plan, current) && InputsApart(layout, plan, current) && InScope(layout, plan, path)
    requires id in current && Feeds(layout, plan, id, path)
    ensures Attribute(layout, plan, current, path).Everything? || id in Attribute(layout, plan, current, path).ids
  {
    AttributeByHolder(layout, plan, current, path);
    var holder := Holder(plan, path);
    if holder.Some? {
      HolderHoldsFirst(plan, path, holder.value);
      var r := HoldingRoot(plan, holder.value, path);
      var s :| Reads(layout, plan, id, s) && Comparable(s, path);
      if s <= path { PrefixesOfOnePathCompare(r, s, path); }
      assert Comparable(r, s);
    } else {
      UnheldInScope(layout, plan, path);
    }
  }

  lemma AncestorFeeds(layout: Layout, plan: BuildPlan, id: string, above: Path, path: Path)
    requires above <= path && Feeds(layout, plan, id, path)
    ensures Feeds(layout, plan, id, above)
  {
    var root :| Reads(layout, plan, id, root) && Comparable(root, path);
    if root <= path { PrefixesOfOnePathCompare(root, above, path); }
    assert Comparable(root, above);
  }

  /** When no root tested for one unit meets what another reads, dirty paths that
      cover a change dirty every unit the change feeds. */
  lemma DirtyUnitsAreComplete(layout: Layout, plan: BuildPlan, current: set<string>, paths: seq<Path>, change: Path, id: string)
    requires CurrentIds(plan, current) && InputsApart(layout, plan, current)
    requires IsCovered(change, paths) && forall p :: p in paths ==> InScope(layout, plan, p)
    requires id in current && Feeds(layout, plan, id, change)
    ensures id in DirtyUnits(layout, plan, current, paths)
  {
    var i :| 0 <= i < |paths| && paths[i] <= change;
    assert paths[i] in paths;
    AncestorFeeds(layout, plan, id, paths[i], change);
    AttributedToFed(layout, plan, current, paths[i], id);
  }

  // Units that share an input

  lemma MissedUnit(layout: Layout, plan: BuildPlan, current: set<string>, path: Path, holder: string, id: string)
    requires CurrentIds(plan, current) && !IsConfiguration(layout, path)
    requires holder in current && HoldsFirst(plan, holder, path) && id in current && id != holder
    ensures id !in DirtyUnits(layout, plan, current, [path])
  {
    DirtyByHolder(layout, plan, current, path, id);
    HolderHoldsFirst(plan, path, holder);
    HolderHoldsFirst(plan, path, id);
  }

  /** Two current units that share an input: a change there misses all but one. */
  lemma SharedInputIsMissed(layout: Layout, plan: BuildPlan, current: set<string>, path: Path)
    requires CurrentIds(plan, current) && !IsConfiguration(layout, path)
    requires MatchesStageInput(path, plan.sitePagesRoot) && MatchesStageInput(path, plan.siteAssetsRoot)
    ensures Feeds(layout, plan, SITE_ASSETS.id, path) && SITE_ASSETS.id in current
    ensures SITE_ASSETS.id !in DirtyUnits(layout, plan, current, [path])
  {
    CurrentSiteUnits(plan, current);
    HolderHoldsFirst(plan, path, SITE_PAGES.id);
    assert SITE_PAGES.id[5] == 'p' && SITE_ASSETS.id[5] == 'a';
    MissedUnit(layout, plan, current, path, SITE_PAGES.id, SITE_ASSETS.id);
    assert SourceOf(Scanned(plan)[1], SITE_ASSETS.id, plan.siteAssetsRoot.value);
    assert Reads(layout, plan, SITE_ASSETS.id, plan.siteAssetsRoot.value);
  }

  /** Two components of one workspace: the development docs of the second lie in
      the content source of the first. */
  function BorrowedDocsPlan(first: string, second: string): BuildPlan {
    BuildPlan(
      None, None, [],
      [Component(first, OwnPublication(first, None, []), None, Some(["w", "b", "pages"]), None, Some(["w", "b"])),
       Component(second, OwnPublication(second, None, []), None, None, None, Some(["w", "a"]))],
      [Context(second, Some("docs"), Development, None, None, None, false, None, None, ["w", "b", "docs"], None)])
  }

  const BORROWING := Layout(["w"], ["w", "site"], ["w", "site", "catalog"], None)

  const BORROWED_PAGE: Path := ["w", "b", "docs", "page"]

  lemma BorrowedDocsUnits(first: string, second: string)
    ensures var plan := BorrowedDocsPlan(first, second);
      && UnitAt(plan, 0) in PlannedUnits(plan) && UnitAt(plan, 0).id == ComponentId(first)
      && UnitAt(plan, 1) in PlannedUnits(plan) && UnitAt(plan, 1).id == ComponentId(second)
  {
    var plan := BorrowedDocsPlan(first, second);
    var context := plan.contexts[0];
    ContextIsAnInput(plan.components, plan.contexts, 0);
    assert InputsOf(plan.components, plan.contexts, second) != [];
    StagedComponentHasUnit(plan, 2, 0);
    StagedComponentHasUnit(plan, 2, 1);
  }

  /** The docs of an artifact may lie in the content source of another component: the
      plan is valid, and a change there makes the other component dirty and not the
      one that stages it. */
  lemma BorrowedDocsAreMissed(first: string, second: string, current: set<string>, fold: char -> string)
    requires first != second && IsName(first) && IsName(second) && CurrentIds(BorrowedDocsPlan(first, second), current)
    requires AlreadyFolded(PlannedUnits(BorrowedDocsPlan(first, second)), fold)
    ensures var plan := BorrowedDocsPlan(first, second);
      && ContextsKnown(plan.components, plan.contexts) && AllAllowed(Claims(PlannedUnits(plan), fold))
      && ComponentId(second) in current && Feeds(BORROWING, plan, ComponentId(second), BORROWED_PAGE)
      && DirtyUnits(BORROWING, plan, current, [BORROWED_PAGE]) == {ComponentId(first)}
  {
    HomePlanIsValid(BorrowedDocsPlan(first, second), fold);
    BorrowedDocsDirt(first, second, current);
    BorrowedDocsFeed(first, second);
  }

  lemma BorrowedDocsDirt(first: string, second: string, current: set<string>)
    requires first != second && CurrentIds(BorrowedDocsPlan(first, second), current)
    ensures ComponentId(second) in current
    ensures DirtyUnits(BORROWING, BorrowedDocsPlan(first, second), current, [BORROWED_PAGE]) == {ComponentId(first)}
  {
    var plan := BorrowedDocsPlan(first, second);
    BorrowedDocsUnits(first, second);
    BorrowedDocsHeld(first, second);
    AttributeByHolder(BORROWING, plan, current, BORROWED_PAGE);
    DirtyUnitsOfOne(BORROWING, plan, current, BORROWED_PAGE);
    assert {ComponentId(first)} * current == {ComponentId(first)};
  }

  lemma BorrowedDocsHeld(first: string, second: string)
    ensures Holder(BorrowedDocsPlan(first, second), BORROWED_PAGE) == Some(ComponentId(first))
    ensures !IsConfiguration(BORROWING, BORROWED_PAGE)
  {
    var source: Path := ["w", "b"];
    assert source <= BORROWED_PAGE;
    assert ComponentMatches(BORROWED_PAGE, BorrowedDocsPlan(first, second).components[0]);
    assert BORROWING.catalog[1] != BORROWED_PAGE[1];
  }

  lemma BorrowedDocsFeed(first: string, second: string)
    ensures Feeds(BORROWING, BorrowedDocsPlan(first, second), ComponentId(second), BORROWED_PAGE)
  {
    var plan := BorrowedDocsPlan(first, second);
    var docs: Path := ["w", "b", "docs"];
    assert Scanned(plan)[4] == ComponentRoots(plan.components[1], plan.contexts);
    assert plan.contexts[..0] == [];
    assert docs in ContextSources(plan.contexts, second);
    assert SourceOf(Scanned(plan)[4], ComponentId(second), docs);
    assert Reads(BORROWING, plan, ComponentId(second), docs) && docs <= BORROWED_PAGE;
  }
}
