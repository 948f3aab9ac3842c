/** Which files the units of a plan are made from (staging/spec_builder.py), and what
    the configuration files do (commands/watch.py). */
module UnitSources {
  import opened Options
  import opened Ownership
  import opened Paths
  import opened Plan
  import opened DirtyPaths

  /** Where a version context lies beneath a docs or assets root: development docs fill
      it, all else has a directory for its kind and in it one for its name. */
  predicate LiesAt(root: Path, c: Context, place: Path) {
    match c.kind
    case Development => place == root
    case NamedRef => if c.namedRef.Some? then place == root + ["refs"] + Names(c.namedRef.value) else place == root
    case LineHead => if c.releaseLine.Some? then place == root + ["maintenance"] + Names(c.releaseLine.value) else place == root
    case Candidate => if c.version.Some? then place == root + ["candidates"] + Names(c.version.value) else place == root
    case Released => if c.version.Some? then place == root + ["releases"] + Names(c.version.value) else place == root
  }

  /** The segments of a name that may contain slashes. */
  function Names(name: string): Path { DropDots(Split(name)) }

  lemma PlainName(name: string)
    requires NoSlash(name) && name != "" && name != "."
    ensures Names(name) == [name]
  {
    SplitName(name);
    assert [name][1..] == [] && DropDots([]) == [];
    assert [name] + [] == [name];
  }

  lemma PlacedBeneath(root: Path, c: Context, place: Path)
    ensures SourceRootOf(root, c) == place <==> LiesAt(root, c, place)
  {
  }

  /** The docs and assets of a version context. */
  predicate ReadsContext(c: Context, place: Path) {
    LiesAt(c.docsRoot, c, place) || (c.assetsRoot.Some? && LiesAt(c.assetsRoot.value, c, place))
  }

  lemma {:induction false} ContextPlaces(contexts: seq<Context>, slug: string, place: Path)
    ensures place in ContextSources(contexts, slug) <==> exists k :: 0 <= k < |contexts| && contexts[k].slug == slug && ReadsContext(contexts[k], place)
  {
    if contexts != [] {
      var front, last := contexts[..|contexts| - 1], contexts[|contexts| - 1];
      ContextPlaces(front, slug, place);
      PlacedBeneath(last.docsRoot, last, place);
      if last.assetsRoot.Some? { PlacedBeneath(last.assetsRoot.value, last, place); }
      assert forall k :: 0 <= k < |front| ==> front[k] == contexts[k];
    }
  }

  /** What the unit of a component is made from. */
  ghost predicate MadeFrom(plan: BuildPlan, c: Component, place: Path) {
    || Some(place) == c.metadataFile || Some(place) == c.pagesRoot || Some(place) == c.assetsRoot
    || exists k :: 0 <= k < |plan.contexts| && plan.contexts[k].slug == c.slug && ReadsContext(plan.contexts[k], place)
  }

  lemma ComponentAt(plan: BuildPlan, i: nat)
    requires i < |plan.components|
    ensures |Scanned(plan)| == 3 + |plan.components| && Scanned(plan)[3 + i] == ComponentRoots(plan.components[i], plan.contexts)
  {
  }

  /** The unit of a component depends on its metadata, its pages, its assets and the docs
      and assets of its version contexts, on the configuration, and on nothing else. */
  lemma ComponentSources(layout: Layout, plan: BuildPlan, i: nat, place: Path)
    requires DistinctSlugs(plan.components) && i < |plan.components|
    ensures Reads(layout, plan, ComponentId(plan.components[i].slug), place) <==>
      place == layout.catalog || Some(place) == layout.provider || MadeFrom(plan, plan.components[i], place)
  {
    var c, id := plan.components[i], ComponentId(plan.components[i].slug);
    ContextPlaces(plan.contexts, c.slug, place);
    ComponentAt(plan, i);
    if MadeFrom(plan, c, place) { assert SourceOf(Scanned(plan)[3 + i], id, place); }
    if k :| 0 <= k < |Scanned(plan)| && SourceOf(Scanned(plan)[k], id, place) {
      OnlyItsOwn(plan, i, k, place);
    }
  }

  lemma OnlyItsOwn(plan: BuildPlan, i: nat, k: nat, place: Path)
    requires DistinctSlugs(plan.components) && i < |plan.components| && k < |Scanned(plan)|
    requires SourceOf(Scanned(plan)[k], ComponentId(plan.components[i].slug), place)
    ensures MadeFrom(plan, plan.components[i], place)
  {
    var id := ComponentId(plan.components[i].slug);
    assert id[0] == 'c' && SITE_PAGES.id[0] == 's' && SITE_ASSETS.id[0] == 's' && VENDOR_ASSETS.id[0] == 'v';
    assert k >= 3;
    ComponentAt(plan, k - 3);
    var other := plan.components[k - 3];
    assert ComponentId(other.slug)[10..] == other.slug && id[10..] == plan.components[i].slug;
    ContextPlaces(plan.contexts, other.slug, place);
  }

  /** The site units depend on their own input and the configuration. */
  lemma SiteSources(layout: Layout, plan: BuildPlan, place: Path)
    ensures Reads(layout, plan, SITE_PAGES.id, place) <==> place == layout.catalog || Some(place) == layout.provider || Some(place) == plan.sitePagesRoot
    ensures Reads(layout, plan, SITE_ASSETS.id, place) <==> place == layout.catalog || Some(place) == layout.provider || Some(place) == plan.siteAssetsRoot
    ensures Reads(layout, plan, VENDOR_ASSETS.id, place) <==> place == layout.catalog || Some(place) == layout.provider || place in plan.vendorSources
  {
    assert SITE_PAGES.id[5] == 'p' && SITE_ASSETS.id[5] == 'a' && SITE_PAGES.id[0] == 's' && SITE_ASSETS.id[0] == 's' && VENDOR_ASSETS.id[0] == 'v';
    forall k | 3 <= k < |Scanned(plan)| ensures Scanned(plan)[k].id[0] == 'c' { ComponentAt(plan, k - 3); }
    var units := Scanned(plan);
    assert units[0] == UnitRoots(SITE_PAGES.id, One(plan.sitePagesRoot), One(plan.sitePagesRoot));
    assert units[1] == UnitRoots(SITE_ASSETS.id, One(plan.siteAssetsRoot), One(plan.siteAssetsRoot));
    assert units[2] == UnitRoots(VENDOR_ASSETS.id, plan.vendorSources, plan.vendorSources);
    if Some(place) == plan.sitePagesRoot { assert SourceOf(units[0], SITE_PAGES.id, place); }
    if Some(place) == plan.siteAssetsRoot { assert SourceOf(units[1], SITE_ASSETS.id, place); }
    if place in plan.vendorSources { assert SourceOf(units[2], VENDOR_ASSETS.id, place); }
  }

  /** A change of the catalog or the provider snapshot makes every unit dirty. */
  lemma ConfigurationMakesAllDirty(layout: Layout, plan: BuildPlan, current: set<string>, paths: seq<Path>, i: nat)
    requires i < |paths| && (paths[i] == layout.catalog || Some(paths[i]) == layout.provider)
    ensures DirtyUnits(layout, plan, current, paths) == current
  {
    assert Attribute(layout, plan, current, paths[i]).Everything?;
  }
}
