/** The route validation of an evaluation, step by step (evaluation/routes.py). */
module RouteValidation {
  import opened Options
  import opened Paths
  import opened Plan
  import opened RedirectLoops
  import opened Routes

  lemma {:induction false} RegisterConcat(lower: string -> string, index: Index, a: seq<KnownRoute>, b: seq<KnownRoute>)
    ensures RegisterAll(lower, index, a + b) == RegisterAll(lower, RegisterAll(lower, index, a), b)
  {
    if b == [] {
      assert a + b == a;
    } else {
      RegisterConcat(lower, index, a, b[..|b| - 1]);
      assert (a + b)[..|a + b| - 1] == a + b[..|b| - 1];
    }
  }

  class RouteValidator {
    const lower: string -> string
    var index: Index
    var targets: Targets
    var links: Links

    constructor (lowering: string -> string)
      ensures lower == lowering && index == Index(map[], []) && targets == map[] && links == Links(map[], [], [])
    {
      lower, index, targets, links := lowering, Index(map[], []), map[], Links(map[], [], []);
    }

    /** The dictionary of published targets. */
    method AssignPublished(published: seq<KnownRoute>)
      requires index == Index(map[], [])
      modifies this`index
      ensures index == Index(AssignAll(lower, published), [])
    {
      for i := 0 to |published|
        invariant index == Index(AssignAll(lower, published[..i]), [])
      {
        assert published[..i + 1][..i] == published[..i];
        index := index.(routes := index.routes[KeyOf(lower, published[i]) := published[i]]);
      }
      assert published[..|published|] == published;
    }

    method RegisterRoute(r: KnownRoute)
      modifies this`index
      ensures index == Register(lower, old(index), r)
    {
      var key := KeyOf(lower, r);
      if key !in index.routes {
        index := index.(routes := index.routes[key := r]);
        return;
      }
      if AllowsSharedContextRoute(index.routes[key], r) { return; }
      index := index.(diagnostics := index.diagnostics + [RouteCollision(key)]);
    }

    method RegisterContexts(components: seq<Component>, contexts: seq<Context>)
      requires ContextsKnown(components, contexts) && targets == map[]
      modifies this`index, this`targets
      ensures index == RegisterAll(lower, old(index), ContextRoutes(components, contexts))
      ensures targets == ContextTargets(components, contexts)
    {
      for i := 0 to |contexts|
        invariant index == RegisterAll(lower, old(index), ContextRoutes(components, contexts[..i]))
        invariant targets == ContextTargets(components, contexts[..i])
      {
        assert contexts[..i + 1][..i] == contexts[..i];
        var route := RouteOfContext(components, contexts[i]);
        var all := ContextRoutes(components, contexts[..i + 1]);
        assert all[..|all| - 1] == ContextRoutes(components, contexts[..i]);
        RegisterRoute(route);
        var reference := ReferenceOfContext(contexts[i]);
        if reference.Some? { targets := targets[reference.value := route]; }
      }
      assert contexts[..|contexts|] == contexts;
    }

    method RegisterAliases(c: Component)
      modifies this`index
      ensures index == RegisterAll(lower, old(index), AliasRoutes(c, c.publication.aliases))
    {
      var aliases := c.publication.aliases;
      for i := 0 to |aliases|
        invariant index == RegisterAll(lower, old(index), AliasRoutes(c, aliases[..i]))
      {
        assert aliases[..i + 1][..i] == aliases[..i];
        var all := AliasRoutes(c, aliases[..i + 1]);
        assert all[..|all| - 1] == AliasRoutes(c, aliases[..i]);
        RegisterRoute(KnownRoute(OriginOr(aliases[i].origin, c.publication.origin), aliases[i].path, c.slug, AliasRoute));
      }
      assert aliases[..|aliases|] == aliases;
    }

    method RegisterRedirectSources(c: Component)
      modifies this`index
      ensures index == RegisterAll(lower, old(index), SourceRoutes(c, c.publication.redirects))
    {
      var redirects := c.publication.redirects;
      for i := 0 to |redirects|
        invariant index == RegisterAll(lower, old(index), SourceRoutes(c, redirects[..i]))
      {
        assert redirects[..i + 1][..i] == redirects[..i];
        var all := SourceRoutes(c, redirects[..i + 1]);
        assert all[..|all| - 1] == SourceRoutes(c, redirects[..i]);
        RegisterRoute(KnownRoute(OriginOr(redirects[i].fromOrigin, c.publication.origin), redirects[i].fromPath, c.slug, RedirectRoute));
      }
      assert redirects[..|redirects|] == redirects;
    }

    method ValidateCanonicalPath(c: Component)
      modifies this`index
      ensures index == CheckCanonical(lower, old(index), c)
    {
      if c.publication.canonicalPath.None? { return; }
      var key := Key(lower, c.publication.origin, c.publication.canonicalPath.value);
      if key in index.routes && index.routes[key].slug == c.slug && index.routes[key].kind != RedirectRoute { return; }
      index := index.(diagnostics := index.diagnostics + [CanonicalInvalid(c.slug)]);
    }

    /** Aliases, canonical path and component reference of one component. */
    method RegisterComponent(plan: BuildPlan, i: nat)
      requires ContextsKnown(plan.components, plan.contexts) && i < |plan.components|
      requires ComponentPathsRouted(lower, plan, i + 1)
      requires index == IndexUpTo(lower, plan, i) && targets == TargetsUpTo(lower, plan, i)
      modifies this`index, this`targets
      ensures index == IndexUpTo(lower, plan, i + 1) && targets == TargetsUpTo(lower, plan, i + 1)
    {
      var c := plan.components[i];
      RegisterAliases(c);
      ValidateCanonicalPath(c);
      targets := targets[ComponentReference(c.slug) := PreferredRoute(lower, index.routes, c)];
    }

    method RegisterComponents(plan: BuildPlan)
      requires ContextsKnown(plan.components, plan.contexts) && ComponentPathsRouted(lower, plan, |plan.components|)
      requires index == PublishedAndContexts(lower, plan) && targets == ContextTargets(plan.components, plan.contexts)
      modifies this`index, this`targets
      ensures index == IndexUpTo(lower, plan, |plan.components|)
      ensures targets == TargetsUpTo(lower, plan, |plan.components|)
    {
      for i := 0 to |plan.components|
        invariant index == IndexUpTo(lower, plan, i) && targets == TargetsUpTo(lower, plan, i)
      {
        RegisterComponent(plan, i);
      }
    }

    method RegisterAllSources(components: seq<Component>)
      modifies this`index
      ensures index == RegisterAll(lower, old(index), AllSources(components))
    {
      for i := 0 to |components|
        invariant index == RegisterAll(lower, old(index), AllSources(components[..i]))
      {
        assert components[..i + 1][..i] == components[..i];
        RegisterConcat(lower, old(index), AllSources(components[..i]), SourceRoutes(components[i], components[i].publication.redirects));
        RegisterRedirectSources(components[i]);
      }
      assert components[..|components|] == components;
    }

    /** Resolves one redirect and records its edge or an unknown target. */
    method ValidateRedirectTarget(h: Hop)
      modifies this`links
      ensures links == Link(lower, index.routes, targets, old(links), h)
    {
      if IsExternal(h.target) { return; }
      var source := SourceKey(lower, h);
      var resolved := ResolveInternalReference(lower, index.routes, targets, h.origin, h.target);
      if resolved.None? {
        links := links.(unknown := links.unknown + [TargetUnknown(source, h.target)]);
        return;
      }
      var order := if source in links.edges then links.order else links.order + [source];
      links := links.(edges := links.edges[source := KeyOf(lower, resolved.value)], order := order);
    }

    method ValidateTargets(hops: seq<Hop>)
      requires links == Links(map[], [], [])
      modifies this`links
      ensures links == LinkAll(lower, index.routes, targets, hops)
    {
      for i := 0 to |hops|
        invariant links == LinkAll(lower, index.routes, targets, hops[..i])
      {
        assert hops[..i + 1][..i] == hops[..i];
        ValidateRedirectTarget(hops[i]);
      }
      assert hops[..|hops|] == hops;
    }

    predicate Fresh()
      reads this
    {
      index == Index(map[], []) && targets == map[] && links == Links(map[], [], [])
    }

    /** Everything but the loop check. */
    method BuildIndex(plan: BuildPlan)
      requires ContextsKnown(plan.components, plan.contexts) && Fresh()
      modifies this
      ensures ComponentPathsRouted(lower, plan, |plan.components|)
      ensures index == EvaluatedIndex(lower, plan) && targets == TargetsUpTo(lower, plan, |plan.components|)
      ensures links == LinkAll(lower, index.routes, targets, HopsOf(plan))
    {
      AllComponentPathsRouted(lower, plan);
      AssignPublished(AllPublished(plan.components));
      RegisterContexts(plan.components, plan.contexts);
      RegisterComponents(plan);
      RegisterAllSources(plan.components);
      ValidateTargets(HopsOf(plan));
    }

    /** Reports every collision, invalid canonical path, unknown target and loop;
        every label lookup of the loop report succeeds. */
    method ValidateRoutes(plan: BuildPlan) returns (diagnostics: seq<RouteDiagnostic>, ghost loops: seq<seq<RouteKey>>)
      requires ContextsKnown(plan.components, plan.contexts) && Fresh()
      modifies this
      ensures ComponentPathsRouted(lower, plan, |plan.components|)
      ensures index == EvaluatedIndex(lower, plan) && targets == TargetsUpTo(lower, plan, |plan.components|)
      ensures links == LinkAll(lower, index.routes, targets, HopsOf(plan))
      ensures ExactlyTheCycles(links.edges, loops)
      ensures exists labels :: Labelled(loops, labels, PathsOf(index.routes))
                && diagnostics == index.diagnostics + links.unknown + LoopDiagnostics(labels)
    {
      BuildIndex(plan);
      OrderListsEdges(lower, index.routes, targets, HopsOf(plan));
      EdgesStartAtRoutes(lower, plan);
      var found, labels, steps := ValidateRedirectLoops(links.order, links.edges, PathsOf(index.routes));
      loops := found;
      diagnostics := index.diagnostics + links.unknown + LoopDiagnostics(labels);
    }
  }

  function HopsOf(plan: BuildPlan): seq<Hop>
    requires ContextsKnown(plan.components, plan.contexts)
  {
    ComponentHops(plan.components) + ContextHops(plan.components, plan.contexts)
  }

  function LoopDiagnostics(labels: seq<seq<string>>): (r: seq<RouteDiagnostic>)
    ensures |r| == |labels| && forall i :: 0 <= i < |r| ==> r[i] == RedirectLoop(labels[i])
  {
    if labels == [] then [] else LoopDiagnostics(labels[..|labels| - 1]) + [RedirectLoop(labels[|labels| - 1])]
  }

  function PathsOf(routes: RouteMap): map<RouteKey, string> { map key | key in routes :: routes[key].path }

  // The edge map

  lemma {:induction false} OrderListsEdges(lower: string -> string, routes: RouteMap, targets: Targets, hops: seq<Hop>)
    ensures Elements(LinkAll(lower, routes, targets, hops).order) == LinkAll(lower, routes, targets, hops).edges.Keys
  {
    if hops != [] { OrderListsEdges(lower, routes, targets, hops[..|hops| - 1]); }
  }

  lemma {:induction false} EdgeSources(lower: string -> string, routes: RouteMap, targets: Targets, hops: seq<Hop>, key: RouteKey)
    requires key in LinkAll(lower, routes, targets, hops).edges
    ensures exists h :: h in hops && SourceKey(lower, h) == key
  {
    var front, last := hops[..|hops| - 1], hops[|hops| - 1];
    assert hops == front + [last];
    if key in LinkAll(lower, routes, targets, front).edges { EdgeSources(lower, routes, targets, front, key); }
  }

  lemma {:induction false} SourceOfRedirect(c: Component, redirects: seq<Redirect>, h: Hop)
    requires h in RedirectHops(c, redirects)
    ensures exists r :: r in SourceRoutes(c, redirects) && r.origin == h.origin && r.path == h.path
  {
    var front := redirects[..|redirects| - 1];
    if h in RedirectHops(c, front) {
      SourceOfRedirect(c, front, h);
    } else {
      assert SourceRoutes(c, redirects)[|SourceRoutes(c, front)|].path == h.path;
    }
  }

  lemma {:induction false} SourceOfComponentHop(components: seq<Component>, h: Hop)
    requires h in ComponentHops(components)
    ensures exists r :: r in AllSources(components) && r.origin == h.origin && r.path == h.path
  {
    var front, last := components[..|components| - 1], components[|components| - 1];
    if h in ComponentHops(front) { SourceOfComponentHop(front, h); } else { SourceOfRedirect(last, last.publication.redirects, h); }
  }

  lemma {:induction false} SourceOfContextHop(components: seq<Component>, contexts: seq<Context>, h: Hop)
    requires ContextsKnown(components, contexts) && h in ContextHops(components, contexts)
    ensures exists r :: r in ContextRoutes(components, contexts) && r.origin == h.origin && r.path == h.path
  {
    var front, last := contexts[..|contexts| - 1], contexts[|contexts| - 1];
    if h in ContextHops(components, front) {
      SourceOfContextHop(components, front, h);
    } else {
      assert RouteOfContext(components, last) in ContextRoutes(components, contexts);
    }
  }

  /** Every redirect source was registered as a route. */
  lemma EdgesStartAtRoutes(lower: string -> string, plan: BuildPlan)
    requires ContextsKnown(plan.components, plan.contexts) && ComponentPathsRouted(lower, plan, |plan.components|)
    ensures var routes := EvaluatedIndex(lower, plan).routes;
      LinkAll(lower, routes, TargetsUpTo(lower, plan, |plan.components|), HopsOf(plan)).edges.Keys <= PathsOf(routes).Keys
  {
    var routes, targets := EvaluatedIndex(lower, plan).routes, TargetsUpTo(lower, plan, |plan.components|);
    forall key | key in LinkAll(lower, routes, targets, HopsOf(plan)).edges ensures key in routes {
      EdgeSources(lower, routes, targets, HopsOf(plan), key);
      var h :| h in HopsOf(plan) && SourceKey(lower, h) == key;
      SourceRegistered(lower, plan, h);
    }
  }

  lemma SourceRegistered(lower: string -> string, plan: BuildPlan, h: Hop)
    requires ContextsKnown(plan.components, plan.contexts) && h in HopsOf(plan)
    ensures SourceKey(lower, h) in EvaluatedIndex(lower, plan).routes
  {
    var key, n := SourceKey(lower, h), |plan.components|;
    RegisteredKeys(lower, IndexUpTo(lower, plan, n), AllSources(plan.components), key);
    if h in ComponentHops(plan.components) {
      SourceOfComponentHop(plan.components, h);
    } else {
      SourceOfContextHop(plan.components, plan.contexts, h);
      ContextRouted(lower, plan, key);
      IndexKeeps(lower, plan, 0, n, key);
    }
  }

  lemma ContextRouted(lower: string -> string, plan: BuildPlan, key: RouteKey)
    requires ContextsKnown(plan.components, plan.contexts)
    ensures key in PublishedAndContexts(lower, plan).routes <==>
      (exists r :: r in AllPublished(plan.components) && KeyOf(lower, r) == key)
      || (exists r :: r in ContextRoutes(plan.components, plan.contexts) && KeyOf(lower, r) == key)
  {
    AssignedKeys(lower, AllPublished(plan.components), key);
    RegisteredKeys(lower, Index(AssignAll(lower, AllPublished(plan.components)), []), ContextRoutes(plan.components, plan.contexts), key);
  }
}
