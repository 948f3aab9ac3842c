/** Plans that pass evaluation and validation and whose redirects staging cannot write,
    or writes differently (staging/aggregates.py against evaluation/routes.py). */
module RedirectExamples {
  import opened Options
  import opened Ownership
  import opened Paths
  import opened Plan
  import opened PlanExamples
  import opened RedirectLoops
  import opened Routes
  import opened RouteValidation
  import opened RedirectIndex
  import opened RedirectAgreement
  import opened RedirectResolution
  import opened Sorting

  // One component at its own home

  function AsIs(text: string): string { text }

  function At(path: string): RouteKey { RouteKey("main", path) }

  function Published(slug: string, path: string): KnownRoute { KnownRoute("main", path, slug, PublishedRoute) }

  function Source(slug: string, path: string): KnownRoute { KnownRoute("main", path, slug, RedirectRoute) }

  function HomeComponent(slug: string, canonicalPath: Option<string>, redirects: seq<Redirect>): Component {
    Component(slug, OwnPublication(slug, canonicalPath, redirects), None, Some(["w", "c", "pages"]), None, Some(["w", "c"]))
  }

  function PlanOf(c: Component, contexts: seq<Context>): BuildPlan { BuildPlan(None, None, [], [c], contexts) }

  function HomeRoutes(slug: string): RouteMap {
    map[At(Home(slug)) := Published(slug, Home(slug)),
        At(DevelopmentPath(slug)) := Published(slug, DevelopmentPath(slug)),
        At(AssetsPath(slug)) := Published(slug, AssetsPath(slug))]
  }

  lemma HomePathsDiffer(slug: string)
    ensures Home(slug) != DevelopmentPath(slug) && Home(slug) != AssetsPath(slug) && DevelopmentPath(slug) != AssetsPath(slug)
  {
    assert |"development/"| == 12 && |"assets/"| == 7;
    assert |DevelopmentPath(slug)| == |Home(slug)| + 12 && |AssetsPath(slug)| == |Home(slug)| + 7;
  }

  function HomeTargets(slug: string): seq<KnownRoute> {
    [Published(slug, Home(slug)), Published(slug, DevelopmentPath(slug)), Published(slug, AssetsPath(slug))]
  }

  lemma HomePublished(slug: string, canonicalPath: Option<string>, redirects: seq<Redirect>)
    ensures var c := HomeComponent(slug, canonicalPath, redirects);
      && PublishedOf(c) == HomeTargets(slug) && AllPublished([c]) == HomeTargets(slug)
      && AssignAll(AsIs, AllPublished([c])) == HomeRoutes(slug) && PublishedApart(AsIs, [c])
  {
    var c, targets := HomeComponent(slug, canonicalPath, redirects), HomeTargets(slug);
    HomePathsDiffer(slug);
    assert [c][..0] == [] && AllPublished([c]) == [] + PublishedOf(c);
    assert targets[..2] == [targets[0], targets[1]] && [targets[0], targets[1]][..1] == [targets[0]] && [targets[0]][..0] == [];
    assert AssignAll(AsIs, [targets[0]]) == map[At(Home(slug)) := targets[0]];
    assert AssignAll(AsIs, [targets[0], targets[1]]) == map[At(Home(slug)) := targets[0], At(DevelopmentPath(slug)) := targets[1]];
  }

  lemma HomeComponentIsValid(slug: string, canonicalPath: Option<string>, redirects: seq<Redirect>, contexts: seq<Context>)
    requires IsName(slug)
    ensures AllAllowed(Claims(PlannedUnits(PlanOf(HomeComponent(slug, canonicalPath, redirects), contexts)), Letter))
  {
    var plan := PlanOf(HomeComponent(slug, canonicalPath, redirects), contexts);
    LettersAreFolded(PlannedUnits(plan));
    HomePlanIsValid(plan, Letter);
  }

  lemma RegisterOne(index: Index, r: KnownRoute)
    requires KeyOf(AsIs, r) !in index.routes
    ensures RegisterAll(AsIs, index, [r]) == Index(index.routes[KeyOf(AsIs, r) := r], index.diagnostics)
  {
    assert [r][..0] == [];
    assert RegisterAll(AsIs, index, []) == index;
  }

  function RouteTo(path: string): string { "route:" + path }

  lemma RouteToReads(path: string)
    ensures FirstColon(RouteTo(path)) == Some(5) && IsRouteReference(RouteTo(path)) && Payload(RouteTo(path)) == path
    ensures !IsExternal(RouteTo(path))
  {
    var t := RouteTo(path);
    assert t[0] == 'r' && t[1] == 'o' && t[2] == 'u' && t[3] == 't' && t[4] == 'e' && t[5] == ':';
    assert FirstColon(t[5..]) == Some(0);
    assert t[4..][1..] == t[5..] && FirstColon(t[4..]) == Some(1);
    assert t[3..][1..] == t[4..] && FirstColon(t[3..]) == Some(2);
    assert t[2..][1..] == t[3..] && FirstColon(t[2..]) == Some(3);
    assert t[1..][1..] == t[2..] && FirstColon(t[1..]) == Some(4);
    assert t[..5] == "route" && t[6..] == path;
  }

  /** A chain of redirects that ends has no cycle. */
  lemma ChainHasNoCycle(edges: map<RouteKey, RouteKey>, chain: seq<RouteKey>, end: RouteKey)
    requires AllDistinct(chain) && chain != [] && end !in chain && Linked(edges, chain)
    requires edges.Keys == Elements(chain) && edges[chain[|chain| - 1]] == end
    ensures forall n :: !OnCycle(edges, n)
  {
    WalkIntoClosedSet(edges, {end}, chain);
    forall n ensures !OnCycle(edges, n) {
      if n !in edges { assert forall k: nat :: k > 0 ==> Follow(edges, n, k) == None; } else { assert n in chain; }
    }
  }

  // A redirect to the source of another redirect

  predicate Unpublished(slug: string, path: string) { At(path) !in HomeRoutes(slug) }

  function ChainPlan(slug: string, moved: string, older: string): BuildPlan {
    PlanOf(HomeComponent(slug, None, [Redirect(None, moved, RouteTo(Home(slug))), Redirect(None, older, RouteTo(moved))]), [])
  }

  function ChainRoutes(slug: string, moved: string, older: string): RouteMap {
    HomeRoutes(slug)[At(moved) := Source(slug, moved)][At(older) := Source(slug, older)]
  }

  function ChainHops(slug: string, moved: string, older: string): seq<Hop> {
    [Hop("main", moved, RouteTo(Home(slug))), Hop("main", older, RouteTo(moved))]
  }

  lemma ChainSources(slug: string, moved: string, older: string)
    ensures var plan := ChainPlan(slug, moved, older);
      AllSources(plan.components) == [Source(slug, moved), Source(slug, older)] && HopsOf(plan) == ChainHops(slug, moved, older)
  {
    var c := ChainPlan(slug, moved, older).components[0];
    var rs, hops := c.publication.redirects, ChainHops(slug, moved, older);
    assert rs[..1] == [rs[0]] && [rs[0]][..0] == [] && [c][..0] == [];
    assert SourceRoutes(c, [rs[0]]) == [Source(slug, moved)];
    assert RedirectHops(c, [rs[0]]) == [hops[0]];
    assert RedirectHops(c, rs) == hops;
    assert ComponentHops([c]) == [] + RedirectHops(c, rs);
  }

  lemma ChainIndex(slug: string, moved: string, older: string)
    requires Unpublished(slug, moved) && Unpublished(slug, older) && moved != older
    ensures var plan := ChainPlan(slug, moved, older);
      && IndexUpTo(AsIs, plan, 1) == Index(HomeRoutes(slug), [])
      && EvaluatedIndex(AsIs, plan) == Index(ChainRoutes(slug, moved, older), [])
  {
    var plan := ChainPlan(slug, moved, older);
    HomePublished(slug, None, plan.components[0].publication.redirects);
    var first := Index(HomeRoutes(slug), []);
    assert IndexUpTo(AsIs, plan, 0) == first;
    assert RegisterAll(AsIs, first, AliasRoutes(plan.components[0], [])) == first;
    ChainSources(slug, moved, older);
    var sources := [Source(slug, moved), Source(slug, older)];
    assert sources[..1] == [sources[0]];
    RegisterOne(first, Source(slug, moved));
  }

  lemma ChainResolves(slug: string, moved: string, older: string)
    requires Unpublished(slug, moved) && Unpublished(slug, older) && moved != older
    ensures var plan := ChainPlan(slug, moved, older);
      && WellPlanned(plan) && ComponentPathsRouted(AsIs, plan, 1)
      && Evaluated(AsIs, plan, "main", RouteTo(Home(slug))) == Some(Published(slug, Home(slug)))
      && Evaluated(AsIs, plan, "main", RouteTo(moved)) == Some(Source(slug, moved))
  {
    ChainIndex(slug, moved, older);
    HomePathsDiffer(slug);
    RouteToReads(Home(slug));
    RouteToReads(moved);
  }

  lemma ChainLinks(slug: string, moved: string, older: string)
    requires Unpublished(slug, moved) && Unpublished(slug, older) && moved != older
    ensures var plan := ChainPlan(slug, moved, older);
      && ComponentPathsRouted(AsIs, plan, 1)
      && LinkAll(AsIs, EvaluatedIndex(AsIs, plan).routes, TargetsUpTo(AsIs, plan, 1), HopsOf(plan)).unknown == []
      && RedirectEdges(AsIs, plan) == map[At(moved) := At(Home(slug)), At(older) := At(moved)]
  {
    var plan, hops := ChainPlan(slug, moved, older), ChainHops(slug, moved, older);
    ChainResolves(slug, moved, older);
    ChainSources(slug, moved, older);
    RouteToReads(Home(slug));
    RouteToReads(moved);
    var routes, targets := EvaluatedIndex(AsIs, plan).routes, TargetsUpTo(AsIs, plan, 1);
    assert hops[..1] == [hops[0]] && [hops[0]][..0] == [];
    assert LinkAll(AsIs, routes, targets, [hops[0]]) == Links(map[At(moved) := At(Home(slug))], [At(moved)], []);
  }

  lemma ChainPasses(slug: string, moved: string, older: string)
    requires Unpublished(slug, moved) && Unpublished(slug, older) && moved != older
    ensures var plan := ChainPlan(slug, moved, older);
      WellPlanned(plan) && ComponentPathsRouted(AsIs, plan, 1) && PassesEvaluation(AsIs, plan)
  {
    var plan := ChainPlan(slug, moved, older);
    ChainResolves(slug, moved, older);
    ChainIndex(slug, moved, older);
    ChainLinks(slug, moved, older);
    HomePublished(slug, None, plan.components[0].publication.redirects);
    var chain := [At(older), At(moved)];
    assert Step(RedirectEdges(AsIs, plan), chain, 0);
    ChainHasNoCycle(RedirectEdges(AsIs, plan), chain, At(Home(slug)));
  }

  /** A plan that passes evaluation and validation with a redirect to the source of
      another redirect: staging cannot write it. */
  lemma RedirectToRedirectFails(slug: string, moved: string, older: string, origins: map<string, string>)
    requires IsName(slug) && Unpublished(slug, moved) && Unpublished(slug, older) && moved != older
    ensures var plan := ChainPlan(slug, moved, older);
      && WellPlanned(plan) && ComponentPathsRouted(AsIs, plan, 1) && PassesEvaluation(AsIs, plan)
      && AllAllowed(Claims(PlannedUnits(plan), Letter))
      && |HopsOf(plan)| == 2 && !HopSettled(AsIs, plan, HopsOf(plan)[1])
      && !Writable(AsIs, StagedIndex(AsIs, plan), origins, HopsOf(plan)[1])
  {
    var plan := ChainPlan(slug, moved, older);
    ChainPasses(slug, moved, older);
    HomeComponentIsValid(slug, None, plan.components[0].publication.redirects, []);
    ChainResolves(slug, moved, older);
    ChainSources(slug, moved, older);
    RouteToReads(moved);
    ChainIndex(slug, moved, older);
    RouteReferencesAgree(AsIs, plan, At(moved));
  }

  // A canonical path that only a version context publishes

  function RefPath(slug: string): string { DevelopmentPath(slug) + "refs/next/" }

  function RefContext(slug: string): Context {
    Context(slug, Some("docs"), NamedRef, None, None, Some("next"), false, None, None, ["w", "docs"], None)
  }

  function RefPlan(slug: string, moved: string): BuildPlan {
    PlanOf(HomeComponent(slug, Some(RefPath(slug)), [Redirect(None, moved, ComponentReference(slug))]), [RefContext(slug)])
  }

  function RefRoute(slug: string): KnownRoute { KnownRoute("main", RefPath(slug), slug, ContextRoute) }

  function RefRoutes(slug: string): RouteMap { HomeRoutes(slug)[At(RefPath(slug)) := RefRoute(slug)] }

  lemma RefPathIsNew(slug: string)
    ensures Unpublished(slug, RefPath(slug))
  {
    assert |"development/"| == 12 && |"assets/"| == 7 && |"refs/next/"| == 10;
    assert |RefPath(slug)| == |Home(slug)| + 22 && |DevelopmentPath(slug)| == |Home(slug)| + 12 && |AssetsPath(slug)| == |Home(slug)| + 7;
  }

  lemma ComponentReferenceReads(slug: string)
    ensures FirstColon(ComponentReference(slug)).Some? && !IsRouteReference(ComponentReference(slug))
    ensures !IsExternal(ComponentReference(slug))
  {
    var t := ComponentReference(slug);
    assert t[0] == 'c' && t[9] == ':';
    ColonFound(t, 9);
    FirstColonInRange(t);
    assert FirstColon(t).value > 0 && t[..FirstColon(t).value][0] == 'c' && "route"[0] == 'r';
    assert "http://"[0] == 'h' && "https://"[0] == 'h';
  }

  lemma {:induction false} ColonFound(s: string, i: nat)
    requires i < |s| && s[i] == ':'
    ensures FirstColon(s).Some?
  {
    if i > 0 && s[0] != ':' { ColonFound(s[1..], i - 1); }
  }

  lemma RefContextRoutes(slug: string, moved: string)
    ensures var plan := RefPlan(slug, moved);
      ContextsKnown(plan.components, plan.contexts) && ContextRoutes(plan.components, plan.contexts) == [RefRoute(slug)]
      && ContextTargets(plan.components, plan.contexts) == map[] && ContextHops(plan.components, plan.contexts) == []
      && HopsOf(plan) == [Hop("main", moved, ComponentReference(slug))]
      && AllSources(plan.components) == [Source(slug, moved)]
  {
    var plan := RefPlan(slug, moved);
    var c, context := plan.components[0], plan.contexts[0];
    var rs := c.publication.redirects;
    assert FindComponent(plan.components, slug) == Some(c);
    assert plan.contexts[..0] == [] && plan.components[..0] == [] && rs[..0] == [];
    assert PublicPath(c.publication, context) == DevelopmentPath(slug) + "refs/" + "next" + "/" == RefPath(slug);
    assert RedirectHops(c, rs) == [Hop("main", moved, ComponentReference(slug))];
    assert SourceRoutes(c, rs) == [Source(slug, moved)];
    assert ComponentHops(plan.components) == [] + RedirectHops(c, rs);
  }

  lemma RefIndex(slug: string, moved: string)
    requires At(moved) !in RefRoutes(slug)
    ensures var plan := RefPlan(slug, moved);
      && ContextsKnown(plan.components, plan.contexts)
      && IndexUpTo(AsIs, plan, 1) == Index(RefRoutes(slug), [])
      && EvaluatedIndex(AsIs, plan) == Index(RefRoutes(slug)[At(moved) := Source(slug, moved)], [])
  {
    var plan := RefPlan(slug, moved);
    var c := plan.components[0];
    RefContextRoutes(slug, moved);
    HomePublished(slug, c.publication.canonicalPath, c.publication.redirects);
    RefPathIsNew(slug);
    RegisterOne(Index(HomeRoutes(slug), []), RefRoute(slug));
    var first := Index(RefRoutes(slug), []);
    assert IndexUpTo(AsIs, plan, 0) == first;
    assert RegisterAll(AsIs, first, AliasRoutes(c, [])) == first;
    assert CanonicalRoute(AsIs, first.routes, c) == Some(RefRoute(slug));
    RegisterOne(first, Source(slug, moved));
  }

  lemma RefResolves(slug: string, moved: string)
    requires IsName(slug) && At(moved) !in RefRoutes(slug)
    ensures var plan := RefPlan(slug, moved);
      && WellPlanned(plan) && ComponentPathsRouted(AsIs, plan, 1)
      && Evaluated(AsIs, plan, "main", ComponentReference(slug)) == Some(RefRoute(slug))
  {
    RefContextRoutes(slug, moved);
    RefIndex(slug, moved);
    ComponentReferenceReads(slug);
    assert '@' !in "docs" && WellSelected(RefContext(slug));
  }

  lemma RefLinks(slug: string, moved: string)
    requires IsName(slug) && At(moved) !in RefRoutes(slug)
    ensures var plan := RefPlan(slug, moved);
      && WellPlanned(plan) && ComponentPathsRouted(AsIs, plan, 1)
      && LinkAll(AsIs, EvaluatedIndex(AsIs, plan).routes, TargetsUpTo(AsIs, plan, 1), HopsOf(plan))
        == Links(map[At(moved) := At(RefPath(slug))], [At(moved)], [])
  {
    RefResolves(slug, moved);
    RefContextRoutes(slug, moved);
    ComponentReferenceReads(slug);
    assert HopsOf(RefPlan(slug, moved))[..0] == [];
  }

  lemma RefPasses(slug: string, moved: string)
    requires IsName(slug) && At(moved) !in RefRoutes(slug)
    ensures var plan := RefPlan(slug, moved);
      WellPlanned(plan) && ComponentPathsRouted(AsIs, plan, 1) && PassesEvaluation(AsIs, plan)
  {
    var plan := RefPlan(slug, moved);
    RefLinks(slug, moved);
    RefIndex(slug, moved);
    HomePublished(slug, plan.components[0].publication.canonicalPath, plan.components[0].publication.redirects);
    ChainHasNoCycle(RedirectEdges(AsIs, plan), [At(moved)], At(RefPath(slug)));
  }

  lemma HomePlaced(slug: string, canonicalPath: Option<string>, redirects: seq<Redirect>)
    ensures IndexPlaces(AsIs, map[], RoutesOfComponent(HomeComponent(slug, canonicalPath, redirects))).Keys == HomeRoutes(slug).Keys
  {
    var c, targets := HomeComponent(slug, canonicalPath, redirects), HomeTargets(slug);
    HomePublished(slug, canonicalPath, redirects);
    assert RoutesOfComponent(c) == targets;
    assert targets[..2] == [targets[0], targets[1]] && [targets[0], targets[1]][..1] == [targets[0]] && [targets[0]][..0] == [];
    assert IndexPlaces(AsIs, map[], [targets[0]]).Keys == {At(Home(slug))};
    assert IndexPlaces(AsIs, map[], [targets[0], targets[1]]).Keys == {At(Home(slug)), At(DevelopmentPath(slug))};
  }

  lemma RefStagedComponent(slug: string, moved: string)
    ensures var targets := StagedUpTo(AsIs, RefPlan(slug, moved).components, 1).targets;
      ComponentReference(slug) in targets && targets[ComponentReference(slug)] == Place("main", Home(slug))
  {
    var c := RefPlan(slug, moved).components[0];
    HomePlaced(slug, c.publication.canonicalPath, c.publication.redirects);
    RefPathIsNew(slug);
  }

  lemma RefStaged(slug: string, moved: string)
    ensures var plan := RefPlan(slug, moved);
      ContextsKnown(plan.components, plan.contexts)
      && ResolvePlace(AsIs, StagedIndex(AsIs, plan), "main", ComponentReference(slug)) == Some(Place("main", Home(slug)))
  {
    var plan := RefPlan(slug, moved);
    RefContextRoutes(slug, moved);
    ComponentReferenceReads(slug);
    ComponentReferenceStart(slug, slug);
    RefStagedComponent(slug, moved);
    ContextsKeepTarget(AsIs, StagedUpTo(AsIs, plan.components, 1), plan.components, plan.contexts, ComponentReference(slug));
  }

  /** A plan that passes evaluation and validation with a component whose canonical path
      only a named ref publishes: evaluation redirects to that path, staging writes the
      component's own path. */
  lemma ContextOnlyCanonicalDiffers(slug: string, moved: string)
    requires IsName(slug) && At(moved) !in RefRoutes(slug)
    ensures var plan := RefPlan(slug, moved);
      && WellPlanned(plan) && ComponentPathsRouted(AsIs, plan, 1) && PassesEvaluation(AsIs, plan)
      && AllAllowed(Claims(PlannedUnits(plan), Letter))
      && |HopsOf(plan)| == 1 && !HopSettled(AsIs, plan, HopsOf(plan)[0])
      && Evaluated(AsIs, plan, "main", HopsOf(plan)[0].target) == Some(RefRoute(slug))
      && ResolvePlace(AsIs, StagedIndex(AsIs, plan), "main", HopsOf(plan)[0].target) == Some(Place("main", Home(slug)))
      && Home(slug) != RefPath(slug)
  {
    var plan := RefPlan(slug, moved);
    RefPasses(slug, moved);
    HomeComponentIsValid(slug, plan.components[0].publication.canonicalPath, plan.components[0].publication.redirects, plan.contexts);
    RefResolves(slug, moved);
    RefContextRoutes(slug, moved);
    RefStaged(slug, moved);
    ComponentReferenceReads(slug);
    RefPathIsNew(slug);
    assert plan.components[0].slug == slug;
    assert NamesComponent(plan.components, 1, ComponentReference(slug));
  }
}
