/** Route registration and redirect validation of an evaluation
    (evaluation/routes.py, evaluation/reference_index.py, evaluation/publication.py). */
module Routes {
  import opened Options
  import opened Paths
  import opened Plan
  import opened RedirectLoops
  import opened Sorting

  datatype RouteKind = PublishedRoute | ContextRoute | AliasRoute | RedirectRoute

  datatype KnownRoute = KnownRoute(origin: string, path: string, slug: string, kind: RouteKind)

  datatype RouteDiagnostic =
    | RouteCollision(key: RouteKey)
    | CanonicalInvalid(slug: string)
    | TargetUnknown(source: RouteKey, target: string)
    | RedirectLoop(labels: seq<string>)

  type RouteMap = map<RouteKey, KnownRoute>

  type Targets = map<string, KnownRoute>

  /** lower stands for the host language's lower-casing of text. */
  function Key(lower: string -> string, origin: string, path: string): RouteKey { RouteKey(origin, lower(path)) }

  function KeyOf(lower: string -> string, r: KnownRoute): RouteKey { Key(lower, r.origin, r.path) }

  // The routes of a plan

  /** The host language's `or` on an optional string. */
  function OriginOr(origin: Option<string>, otherwise: string): string {
    if origin.Some? && origin.value != "" then origin.value else otherwise
  }

  function PublishedOf(c: Component): seq<KnownRoute> {
    var p := c.publication;
    [KnownRoute(p.origin, p.componentPath, c.slug, PublishedRoute),
     KnownRoute(p.origin, p.developmentPath, c.slug, PublishedRoute),
     KnownRoute(p.origin, p.assetsPath, c.slug, PublishedRoute)]
    + if p.docsPath != p.developmentPath then [KnownRoute(p.origin, p.docsPath, c.slug, PublishedRoute)] else []
  }

  function AllPublished(components: seq<Component>): seq<KnownRoute> {
    if components == [] then []
    else AllPublished(components[..|components| - 1]) + PublishedOf(components[|components| - 1])
  }

  function AliasRoutes(c: Component, aliases: seq<Alias>): seq<KnownRoute> {
    if aliases == [] then []
    else
      var last := aliases[|aliases| - 1];
      AliasRoutes(c, aliases[..|aliases| - 1])
      + [KnownRoute(OriginOr(last.origin, c.publication.origin), last.path, c.slug, AliasRoute)]
  }

  function AllAliases(components: seq<Component>): seq<KnownRoute> {
    if components == [] then []
    else
      var last := components[|components| - 1];
      AllAliases(components[..|components| - 1]) + AliasRoutes(last, last.publication.aliases)
  }

  function SourceRoutes(c: Component, redirects: seq<Redirect>): seq<KnownRoute> {
    if redirects == [] then []
    else
      var last := redirects[|redirects| - 1];
      SourceRoutes(c, redirects[..|redirects| - 1])
      + [KnownRoute(OriginOr(last.fromOrigin, c.publication.origin), last.fromPath, c.slug, RedirectRoute)]
  }

  function AllSources(components: seq<Component>): seq<KnownRoute> {
    if components == [] then []
    else
      var last := components[|components| - 1];
      AllSources(components[..|components| - 1]) + SourceRoutes(last, last.publication.redirects)
  }

  function RouteOfContext(components: seq<Component>, c: Context): KnownRoute
    requires FindComponent(components, c.slug).Some?
  {
    var publication := FindComponent(components, c.slug).value.publication;
    KnownRoute(publication.origin, PublicPath(publication, c), c.slug, ContextRoute)
  }

  function ContextRoutes(components: seq<Component>, contexts: seq<Context>): seq<KnownRoute>
    requires ContextsKnown(components, contexts)
  {
    if contexts == [] then []
    else ContextRoutes(components, contexts[..|contexts| - 1]) + [RouteOfContext(components, contexts[|contexts| - 1])]
  }

  // Published targets

  function KeysOf(lower: string -> string, list: seq<KnownRoute>): (keys: seq<RouteKey>)
    ensures |keys| == |list| && forall i :: 0 <= i < |list| ==> keys[i] == KeyOf(lower, list[i])
  {
    if list == [] then [] else KeysOf(lower, list[..|list| - 1]) + [KeyOf(lower, list[|list| - 1])]
  }

  /** The keys of targets that collide with an earlier one, in order. */
  function Repeated(lower: string -> string, list: seq<KnownRoute>): seq<RouteKey> {
    if list == [] then []
    else
      var front, key := list[..|list| - 1], KeyOf(lower, list[|list| - 1]);
      Repeated(lower, front) + if key in KeysOf(lower, front) then [key] else []
  }

  /** No two published targets share their origin and, lower-cased, their path. */
  predicate PublishedApart(lower: string -> string, components: seq<Component>) {
    AllDistinct(KeysOf(lower, AllPublished(components)))
  }

  lemma {:induction false} NoneRepeated(lower: string -> string, list: seq<KnownRoute>)
    ensures Repeated(lower, list) == [] <==> AllDistinct(KeysOf(lower, list))
  {
    if list != [] {
      var front, keys := KeysOf(lower, list[..|list| - 1]), KeysOf(lower, list);
      NoneRepeated(lower, list[..|list| - 1]);
      assert keys == front + [keys[|list| - 1]];
      if keys[|list| - 1] in front {
        var i :| 0 <= i < |front| && front[i] == keys[|list| - 1];
        assert keys[i] == keys[|list| - 1];
      }
    }
  }

  lemma KeysNext(lower: string -> string, list: seq<KnownRoute>, i: nat)
    requires i < |list|
    ensures KeysOf(lower, list[..i + 1]) == KeysOf(lower, list[..i]) + [KeyOf(lower, list[i])]
    ensures Repeated(lower, list[..i + 1])
      == Repeated(lower, list[..i]) + if KeyOf(lower, list[i]) in KeysOf(lower, list[..i]) then [KeyOf(lower, list[i])] else []
  {
    assert list[..i + 1][..i] == list[..i];
  }

  /** Reports each target that collides with an earlier one, hence nothing exactly when all are apart. */
  method ValidatePublication(lower: string -> string, components: seq<Component>) returns (collisions: seq<RouteKey>)
    ensures collisions == Repeated(lower, AllPublished(components))
    ensures collisions == [] <==> PublishedApart(lower, components)
  {
    var targets := AllPublished(components);
    var seen: set<RouteKey> := {};
    collisions := [];
    for i := 0 to |targets|
      invariant forall key :: key in seen <==> key in KeysOf(lower, targets[..i])
      invariant collisions == Repeated(lower, targets[..i])
    {
      var key := KeyOf(lower, targets[i]);
      KeysNext(lower, targets, i);
      if key in seen {
        collisions := collisions + [key];
        continue;
      }
      seen := seen + {key};
    }
    assert targets[..|targets|] == targets;
    NoneRepeated(lower, targets);
  }

  // Registration

  /** Later routes replace earlier ones. */
  function AssignAll(lower: string -> string, list: seq<KnownRoute>): RouteMap {
    if list == [] then map[]
    else AssignAll(lower, list[..|list| - 1])[KeyOf(lower, list[|list| - 1]) := list[|list| - 1]]
  }

  predicate AllowsSharedContextRoute(existing: KnownRoute, candidate: KnownRoute) {
    existing.slug == candidate.slug && candidate.kind == ContextRoute
    && (existing.kind == PublishedRoute || existing.kind == ContextRoute)
  }

  /** The routes registered so far and what was reported about them. */
  datatype Index = Index(routes: RouteMap, diagnostics: seq<RouteDiagnostic>)

  /** The first route at a key stays. */
  function Register(lower: string -> string, index: Index, r: KnownRoute): Index {
    var key := KeyOf(lower, r);
    if key !in index.routes then index.(routes := index.routes[key := r])
    else if AllowsSharedContextRoute(index.routes[key], r) then index
    else index.(diagnostics := index.diagnostics + [RouteCollision(key)])
  }

  function RegisterAll(lower: string -> string, index: Index, list: seq<KnownRoute>): Index {
    if list == [] then index
    else Register(lower, RegisterAll(lower, index, list[..|list| - 1]), list[|list| - 1])
  }

  // References

  function ReferenceOfContext(c: Context): Option<string> {
    match c.kind
    case LineHead => Some(LineReference(c.slug, Show(c.artifact), Show(c.releaseLine)))
    case Released => Some(ReleaseReference(c.slug, Show(c.artifact), Show(c.version)))
    case _ => None
  }

  function LineReference(slug: string, artifact: string, line: string): string { "line:" + slug + "/" + artifact + "@" + line }

  function ReleaseReference(slug: string, artifact: string, version: string): string {
    "release:" + slug + "/" + artifact + "@" + version
  }

  function ComponentReference(slug: string): string { "component:" + slug }

  function ContextTargets(components: seq<Component>, contexts: seq<Context>): Targets
    requires ContextsKnown(components, contexts)
  {
    if contexts == [] then map[]
    else
      var front, last := ContextTargets(components, contexts[..|contexts| - 1]), contexts[|contexts| - 1];
      var reference := ReferenceOfContext(last);
      if reference.Some? then front[reference.value := RouteOfContext(components, last)] else front
  }

  /** The canonical route of a component, if it is one of its publishable routes. */
  function CanonicalRoute(lower: string -> string, routes: RouteMap, c: Component): Option<KnownRoute> {
    if c.publication.canonicalPath.None? then None
    else
      var key := Key(lower, c.publication.origin, c.publication.canonicalPath.value);
      if key in routes && routes[key].slug == c.slug && routes[key].kind != RedirectRoute then Some(routes[key]) else None
  }

  function CheckCanonical(lower: string -> string, index: Index, c: Component): Index {
    if c.publication.canonicalPath.Some? && CanonicalRoute(lower, index.routes, c).None?
    then index.(diagnostics := index.diagnostics + [CanonicalInvalid(c.slug)]) else index
  }

  function ComponentKey(lower: string -> string, c: Component): RouteKey {
    Key(lower, c.publication.origin, c.publication.componentPath)
  }

  function PreferredRoute(lower: string -> string, routes: RouteMap, c: Component): KnownRoute
    requires ComponentKey(lower, c) in routes
  {
    var canonical := CanonicalRoute(lower, routes, c);
    if canonical.Some? then canonical.value else routes[ComponentKey(lower, c)]
  }

  // Resolution

  function FirstColon(s: string): Option<nat> {
    if s == "" then None
    else if s[0] == ':' then Some(0)
    else
      var rest := FirstColon(s[1..]);
      if rest.Some? then Some(rest.value + 1) else None
  }

  lemma {:induction false} FirstColonInRange(s: string)
    ensures FirstColon(s).Some? ==> FirstColon(s).value < |s| && s[FirstColon(s).value] == ':'
  {
    if s != "" && s[0] != ':' { FirstColonInRange(s[1..]); }
  }

  predicate IsRouteReference(reference: string) {
    var colon := FirstColon(reference);
    FirstColonInRange(reference);
    colon.Some? && reference[..colon.value] == "route"
  }

  function Payload(reference: string): string {
    var colon := FirstColon(reference);
    FirstColonInRange(reference);
    if colon.Some? then reference[colon.value + 1..] else ""
  }

  function ResolveInternalReference(
      lower: string -> string, routes: RouteMap, targets: Targets, origin: string, reference: string): Option<KnownRoute> {
    if FirstColon(reference).None? then None
    else if IsRouteReference(reference) then
      var key := RouteKey(origin, lower(Payload(reference)));
      if key in routes then Some(routes[key]) else None
    else if reference in targets then Some(targets[reference])
    else None
  }

  predicate IsExternal(target: string) { "http://" <= target || "https://" <= target }

  // Redirect edges

  /** A redirect to check: where it starts and the target text. */
  datatype Hop = Hop(origin: string, path: string, target: string)

  function RedirectHops(c: Component, redirects: seq<Redirect>): seq<Hop> {
    if redirects == [] then []
    else
      var last := redirects[|redirects| - 1];
      RedirectHops(c, redirects[..|redirects| - 1])
      + [Hop(OriginOr(last.fromOrigin, c.publication.origin), last.fromPath, last.target)]
  }

  function ComponentHops(components: seq<Component>): seq<Hop> {
    if components == [] then []
    else
      var last := components[|components| - 1];
      ComponentHops(components[..|components| - 1]) + RedirectHops(last, last.publication.redirects)
  }

  predicate Redirects(c: Context) { c.redirectsWhenWithdrawn && c.redirectTarget.Some? }

  function HopOfContext(components: seq<Component>, c: Context): Hop
    requires FindComponent(components, c.slug).Some? && c.redirectTarget.Some?
  {
    var route := RouteOfContext(components, c);
    Hop(route.origin, route.path, c.redirectTarget.value)
  }

  function ContextHops(components: seq<Component>, contexts: seq<Context>): seq<Hop>
    requires ContextsKnown(components, contexts)
  {
    if contexts == [] then []
    else
      var last := contexts[|contexts| - 1];
      ContextHops(components, contexts[..|contexts| - 1]) + if Redirects(last) then [HopOfContext(components, last)] else []
  }

  datatype Links = Links(edges: map<RouteKey, RouteKey>, order: seq<RouteKey>, unknown: seq<RouteDiagnostic>)

  function SourceKey(lower: string -> string, h: Hop): RouteKey { Key(lower, h.origin, h.path) }

  function Link(lower: string -> string, routes: RouteMap, targets: Targets, links: Links, h: Hop): Links {
    if IsExternal(h.target) then links
    else
      var source := SourceKey(lower, h);
      var resolved := ResolveInternalReference(lower, routes, targets, h.origin, h.target);
      if resolved.None? then links.(unknown := links.unknown + [TargetUnknown(source, h.target)])
      else links.(edges := links.edges[source := KeyOf(lower, resolved.value)],
                  order := if source in links.edges then links.order else links.order + [source])
  }

  function LinkAll(lower: string -> string, routes: RouteMap, targets: Targets, hops: seq<Hop>): Links {
    if hops == [] then Links(map[], [], [])
    else Link(lower, routes, targets, LinkAll(lower, routes, targets, hops[..|hops| - 1]), hops[|hops| - 1])
  }

  // What an evaluation computes

  function PublishedAndContexts(lower: string -> string, plan: BuildPlan): Index
    requires ContextsKnown(plan.components, plan.contexts)
  {
    RegisterAll(lower, Index(AssignAll(lower, AllPublished(plan.components)), []), ContextRoutes(plan.components, plan.contexts))
  }

  /** After the aliases and canonical paths of the first n components. */
  function IndexUpTo(lower: string -> string, plan: BuildPlan, n: nat): Index
    requires ContextsKnown(plan.components, plan.contexts) && n <= |plan.components|
  {
    if n == 0 then PublishedAndContexts(lower, plan)
    else
      var c := plan.components[n - 1];
      CheckCanonical(lower, RegisterAll(lower, IndexUpTo(lower, plan, n - 1), AliasRoutes(c, c.publication.aliases)), c)
  }

  function EvaluatedIndex(lower: string -> string, plan: BuildPlan): Index
    requires ContextsKnown(plan.components, plan.contexts)
  {
    RegisterAll(lower, IndexUpTo(lower, plan, |plan.components|), AllSources(plan.components))
  }

  predicate ComponentPathsRouted(lower: string -> string, plan: BuildPlan, n: nat)
    requires ContextsKnown(plan.components, plan.contexts) && n <= |plan.components|
  {
    forall i :: 0 <= i < n ==> ComponentKey(lower, plan.components[i]) in IndexUpTo(lower, plan, i + 1).routes
  }

  function TargetsUpTo(lower: string -> string, plan: BuildPlan, n: nat): Targets
    requires ContextsKnown(plan.components, plan.contexts) && n <= |plan.components|
    requires ComponentPathsRouted(lower, plan, n)
  {
    if n == 0 then ContextTargets(plan.components, plan.contexts)
    else
      var c := plan.components[n - 1];
      TargetsUpTo(lower, plan, n - 1)[ComponentReference(c.slug) := PreferredRoute(lower, IndexUpTo(lower, plan, n).routes, c)]
  }

  // Keys of the index

  lemma {:induction false} AssignedKeys(lower: string -> string, list: seq<KnownRoute>, key: RouteKey)
    ensures key in AssignAll(lower, list) <==> exists r :: r in list && KeyOf(lower, r) == key
    ensures key in AssignAll(lower, list) ==>
      AssignAll(lower, list)[key] in list && KeyOf(lower, AssignAll(lower, list)[key]) == key
  {
    if list != [] {
      var front, last := list[..|list| - 1], list[|list| - 1];
      AssignedKeys(lower, front, key);
      assert list == front + [last];
      if r :| r in list && KeyOf(lower, r) == key { assert r in front || r == last; }
    }
  }

  lemma {:induction false} RegisteredKeys(lower: string -> string, index: Index, list: seq<KnownRoute>, key: RouteKey)
    ensures var all := RegisterAll(lower, index, list).routes;
      && (key in all <==> key in index.routes || exists r :: r in list && KeyOf(lower, r) == key)
      && (key in index.routes ==> all[key] == index.routes[key])
      && (key in all && key !in index.routes ==> all[key] in list && KeyOf(lower, all[key]) == key)
  {
    if list != [] {
      var front, last := list[..|list| - 1], list[|list| - 1];
      RegisteredKeys(lower, index, front, key);
      assert list == front + [last] && last in list;
      assert forall r :: r in list <==> r in front || r == last;
      var before := RegisterAll(lower, index, front);
      assert RegisterAll(lower, index, list) == Register(lower, before, last);
    }
  }

  lemma {:induction false} PublishedListed(components: seq<Component>, i: nat, r: KnownRoute)
    requires i < |components| && r in PublishedOf(components[i])
    ensures r in AllPublished(components)
  {
    if i < |components| - 1 { PublishedListed(components[..|components| - 1], i, r); }
  }

  /** What the aliases of component n add. */
  lemma IndexStep(lower: string -> string, plan: BuildPlan, n: nat, key: RouteKey)
    requires ContextsKnown(plan.components, plan.contexts) && n < |plan.components|
    ensures var before, after := IndexUpTo(lower, plan, n).routes, IndexUpTo(lower, plan, n + 1).routes;
      var aliases := AliasRoutes(plan.components[n], plan.components[n].publication.aliases);
      && (key in before ==> key in after && after[key] == before[key])
      && (key in after <==> key in before || exists r :: r in aliases && KeyOf(lower, r) == key)
      && (key in after && key !in before ==> after[key] in aliases && KeyOf(lower, after[key]) == key)
  {
    var c := plan.components[n];
    RegisteredKeys(lower, IndexUpTo(lower, plan, n), AliasRoutes(c, c.publication.aliases), key);
  }

  ghost predicate Keeps(before: RouteMap, after: RouteMap, key: RouteKey) {
    key in before ==> key in after && after[key] == before[key]
  }

  lemma IndexStepKeeps(lower: string -> string, plan: BuildPlan, n: nat, key: RouteKey)
    requires ContextsKnown(plan.components, plan.contexts) && n < |plan.components|
    ensures Keeps(IndexUpTo(lower, plan, n).routes, IndexUpTo(lower, plan, n + 1).routes, key)
  {
    IndexStep(lower, plan, n, key);
  }

  /** Registered keys stay as they are while later components are registered. */
  lemma {:induction false} IndexKeeps(lower: string -> string, plan: BuildPlan, m: nat, n: nat, key: RouteKey)
    requires ContextsKnown(plan.components, plan.contexts) && m <= n <= |plan.components|
    ensures Keeps(IndexUpTo(lower, plan, m).routes, IndexUpTo(lower, plan, n).routes, key)
    decreases n
  {
    if m < n {
      IndexKeeps(lower, plan, m, n - 1, key);
      IndexStepKeeps(lower, plan, n - 1, key);
      var middle := IndexUpTo(lower, plan, n - 1).routes;
      assert Keeps(middle, IndexUpTo(lower, plan, n).routes, key);
    }
  }

  lemma PublishedRouted(lower: string -> string, plan: BuildPlan, n: nat, r: KnownRoute)
    requires ContextsKnown(plan.components, plan.contexts) && n <= |plan.components| && r in AllPublished(plan.components)
    ensures KeyOf(lower, r) in IndexUpTo(lower, plan, n).routes
    ensures IndexUpTo(lower, plan, n).routes[KeyOf(lower, r)].kind == PublishedRoute
  {
    var key := KeyOf(lower, r);
    AssignedKeys(lower, AllPublished(plan.components), key);
    RegisteredKeys(lower, Index(AssignAll(lower, AllPublished(plan.components)), []), ContextRoutes(plan.components, plan.contexts), key);
    AllPublishedKind(plan.components, AssignAll(lower, AllPublished(plan.components))[key]);
    IndexKeeps(lower, plan, 0, n, key);
  }

  lemma {:induction false} AllPublishedKind(components: seq<Component>, r: KnownRoute)
    requires r in AllPublished(components)
    ensures r.kind == PublishedRoute
  {
    var front := components[..|components| - 1];
    if r in AllPublished(front) { AllPublishedKind(front, r); }
  }

  /** The lookup of a component's own path never fails. */
  lemma AllComponentPathsRouted(lower: string -> string, plan: BuildPlan)
    requires ContextsKnown(plan.components, plan.contexts)
    ensures ComponentPathsRouted(lower, plan, |plan.components|)
  {
    forall i | 0 <= i < |plan.components| ensures ComponentKey(lower, plan.components[i]) in IndexUpTo(lower, plan, i + 1).routes {
      PublishedListed(plan.components, i, PublishedOf(plan.components[i])[0]);
      PublishedRouted(lower, plan, i + 1, PublishedOf(plan.components[i])[0]);
    }
  }
}
