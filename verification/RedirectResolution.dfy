/** After a clean evaluation staging resolves every redirect: component references,
    and the theorem over all references of a plan. */
module RedirectResolution {
  import opened Options
  import opened Ownership
  import opened Paths
  import opened Plan
  import opened RedirectLoops
  import opened Routes
  import opened RouteValidation
  import opened RedirectIndex
  import opened RedirectAgreement

  // Clean registrations

  lemma {:induction false} ReportsGrow(lower: string -> string, index: Index, list: seq<KnownRoute>)
    ensures |RegisterAll(lower, index, list).diagnostics| >= |index.diagnostics|
  {
    if list != [] { ReportsGrow(lower, index, list[..|list| - 1]); }
  }

  /** Without a report, aliases and sources were registered at free keys only. */
  lemma {:induction false} CleanlyRegistered(lower: string -> string, index: Index, list: seq<KnownRoute>, i: nat)
    requires |RegisterAll(lower, index, list).diagnostics| == |index.diagnostics|
    requires i < |list| && list[i].kind != ContextRoute
    ensures KeyOf(lower, list[i]) !in index.routes
  {
    var front, last := list[..|list| - 1], list[|list| - 1];
    ReportsGrow(lower, index, front);
    if i < |front| {
      CleanlyRegistered(lower, index, front, i);
    } else {
      RegisteredKeys(lower, index, front, KeyOf(lower, last));
    }
  }

  predicate CleanUpTo(lower: string -> string, plan: BuildPlan, n: nat)
    requires ContextsKnown(plan.components, plan.contexts) && n <= |plan.components|
  {
    IndexUpTo(lower, plan, n).diagnostics == []
  }

  lemma CleanBefore(lower: string -> string, plan: BuildPlan, n: nat)
    requires ContextsKnown(plan.components, plan.contexts) && n < |plan.components| && CleanUpTo(lower, plan, n + 1)
    ensures CleanUpTo(lower, plan, n)
    ensures var c := plan.components[n];
      forall i :: 0 <= i < |AliasRoutes(c, c.publication.aliases)| ==>
        KeyOf(lower, AliasRoutes(c, c.publication.aliases)[i]) !in IndexUpTo(lower, plan, n).routes
    ensures plan.components[n].publication.canonicalPath.Some? ==>
      CanonicalRoute(lower, IndexUpTo(lower, plan, n + 1).routes, plan.components[n]).Some?
  {
    var c, before := plan.components[n], IndexUpTo(lower, plan, n);
    var aliases := AliasRoutes(c, c.publication.aliases);
    ReportsGrow(lower, before, aliases);
    forall i | 0 <= i < |aliases| ensures KeyOf(lower, aliases[i]) !in before.routes {
      AliasKind(c, c.publication.aliases, aliases[i]);
      CleanlyRegistered(lower, before, aliases, i);
    }
  }

  ghost predicate HeldByContext(lower: string -> string, plan: BuildPlan, n: nat, key: RouteKey)
    requires ContextsKnown(plan.components, plan.contexts) && n <= |plan.components|
  {
    var routes := IndexUpTo(lower, plan, n).routes;
    CleanUpTo(lower, plan, n) && key in routes && routes[key].kind == ContextRoute
  }

  lemma HeldBefore(lower: string -> string, plan: BuildPlan, n: nat, key: RouteKey)
    requires ContextsKnown(plan.components, plan.contexts) && n < |plan.components|
    requires HeldByContext(lower, plan, n + 1, key)
    ensures HeldByContext(lower, plan, n, key)
    ensures !Listed(lower, AliasRoutes(plan.components[n], plan.components[n].publication.aliases), key)
  {
    var c, after := plan.components[n], IndexUpTo(lower, plan, n + 1).routes;
    IndexStep(lower, plan, n, key);
    CleanBefore(lower, plan, n);
    if key !in IndexUpTo(lower, plan, n).routes {
      AliasKind(c, c.publication.aliases, after[key]);
      assert false;
    }
  }

  /** A key that a context holds belongs to no alias. */
  lemma {:induction false} ContextKeyIsNoAlias(lower: string -> string, plan: BuildPlan, n: nat, key: RouteKey)
    requires ContextsKnown(plan.components, plan.contexts) && n <= |plan.components| && HeldByContext(lower, plan, n, key)
    ensures !AliasUpTo(lower, plan.components, n, key)
  {
    if n > 0 {
      HeldBefore(lower, plan, n - 1, key);
      ContextKeyIsNoAlias(lower, plan, n - 1, key);
    }
  }

  // Whose route it is

  lemma {:induction false} PublishedOwner(components: seq<Component>, r: KnownRoute)
    requires r in AllPublished(components)
    ensures exists i :: 0 <= i < |components| && r in PublishedOf(components[i])
  {
    var front := components[..|components| - 1];
    if r in AllPublished(front) {
      PublishedOwner(front, r);
      var i :| 0 <= i < |front| && r in PublishedOf(front[i]);
      assert components[i] == front[i];
    }
  }

  /** Where the route at a key comes from, by its kind. */
  ghost predicate ComesFrom(plan: BuildPlan, n: nat, r: KnownRoute)
    requires n <= |plan.components|
  {
    match r.kind
    case PublishedRoute => r in AllPublished(plan.components)
    case AliasRoute => exists i :: 0 <= i < n && r in AliasRoutes(plan.components[i], plan.components[i].publication.aliases)
    case _ => true
  }

  lemma FirstOrigin(lower: string -> string, plan: BuildPlan, key: RouteKey)
    requires ContextsKnown(plan.components, plan.contexts)
    ensures HasOrigin(lower, plan, 0, key)
  {
    var published, routes := AssignAll(lower, AllPublished(plan.components)), PublishedAndContexts(lower, plan).routes;
    AssignedKeys(lower, AllPublished(plan.components), key);
    RegisteredKeys(lower, Index(published, []), ContextRoutes(plan.components, plan.contexts), key);
    if key in published {
      AllPublishedKind(plan.components, published[key]);
    } else if key in routes {
      ContextKind(plan.components, plan.contexts, routes[key]);
    }
  }

  lemma NextOrigin(lower: string -> string, plan: BuildPlan, n: nat, key: RouteKey)
    requires ContextsKnown(plan.components, plan.contexts) && n < |plan.components|
    requires HasOrigin(lower, plan, n, key)
    ensures HasOrigin(lower, plan, n + 1, key)
  {
    var c, after := plan.components[n], IndexUpTo(lower, plan, n + 1).routes;
    IndexStep(lower, plan, n, key);
    if key in after && key !in IndexUpTo(lower, plan, n).routes { AliasKind(c, c.publication.aliases, after[key]); }
  }

  ghost predicate HasOrigin(lower: string -> string, plan: BuildPlan, n: nat, key: RouteKey)
    requires ContextsKnown(plan.components, plan.contexts) && n <= |plan.components|
  {
    var routes := IndexUpTo(lower, plan, n).routes;
    key in routes ==> ComesFrom(plan, n, routes[key])
  }

  lemma {:induction false} RouteOrigin(lower: string -> string, plan: BuildPlan, n: nat, key: RouteKey)
    requires ContextsKnown(plan.components, plan.contexts) && n <= |plan.components|
    ensures HasOrigin(lower, plan, n, key)
  {
    if n == 0 {
      FirstOrigin(lower, plan, key);
    } else {
      RouteOrigin(lower, plan, n - 1, key);
      NextOrigin(lower, plan, n - 1, key);
    }
  }

  lemma PublishedSlug(c: Component, r: KnownRoute)
    requires r in PublishedOf(c)
    ensures r.slug == c.slug
  {
  }

  lemma SameSlugSameComponent(components: seq<Component>, i: nat, j: nat)
    requires DistinctSlugs(components) && i < |components| && j < |components| && components[i].slug == components[j].slug
    ensures i == j
  {
  }

  /** An own published or alias route of component i has its key among the places
      staged when the component's preferred place is chosen. */
  lemma OwnRouteIsStaged(lower: string -> string, plan: BuildPlan, i: nat, r: KnownRoute)
    requires ContextsKnown(plan.components, plan.contexts) && DistinctSlugs(plan.components) && i < |plan.components|
    requires ComesFrom(plan, i + 1, r) && r.slug == plan.components[i].slug
    requires r.kind == PublishedRoute || r.kind == AliasRoute
    ensures ComponentRoute(lower, plan.components, i + 1, KeyOf(lower, r))
  {
    var c, key := plan.components[i], KeyOf(lower, r);
    if r.kind == PublishedRoute {
      PublishedOwner(plan.components, r);
      var j :| 0 <= j < |plan.components| && r in PublishedOf(plan.components[j]);
      PublishedSlug(plan.components[j], r);
      SameSlugSameComponent(plan.components, i, j);
    } else {
      var j :| 0 <= j < i + 1 && r in AliasRoutes(plan.components[j], plan.components[j].publication.aliases);
      AliasKind(plan.components[j], plan.components[j].publication.aliases, r);
      SameSlugSameComponent(plan.components, i, j);
    }
    assert r in RoutesOfComponent(c);
    ListedMembers(lower, RoutesOfComponent(c), key);
  }

  lemma {:induction false} MoreComponentRoutes(lower: string -> string, components: seq<Component>, m: nat, n: nat, key: RouteKey)
    requires m <= n <= |components|
    ensures PublishedUpTo(lower, components, m, key) ==> PublishedUpTo(lower, components, n, key)
    decreases n
  {
    if m < n { MoreComponentRoutes(lower, components, m, n - 1, key); }
  }

  lemma ContextKeyIsNotStaged(lower: string -> string, plan: BuildPlan, n: nat, key: RouteKey)
    requires ContextsKnown(plan.components, plan.contexts) && n <= |plan.components| && HeldByContext(lower, plan, n, key)
    ensures !ComponentRoute(lower, plan.components, n, key)
  {
    PublishedOrAlias(lower, plan.components, n, key);
    ContextKeyIsNoAlias(lower, plan, n, key);
    if PublishedUpTo(lower, plan.components, n, key) {
      MoreComponentRoutes(lower, plan.components, n, |plan.components|, key);
      PublishedKeys(lower, plan.components, |plan.components|, key);
      assert plan.components[..|plan.components|] == plan.components;
      ListedMembers(lower, AllPublished(plan.components), key);
      var r :| r in AllPublished(plan.components) && KeyOf(lower, r) == key;
      PublishedRouted(lower, plan, n, r);
      assert false;
    }
  }

  // Component references

  function EvaluatedPreferred(lower: string -> string, plan: BuildPlan, i: nat): KnownRoute
    requires ContextsKnown(plan.components, plan.contexts) && i < |plan.components|
    requires ComponentPathsRouted(lower, plan, i + 1)
  {
    PreferredRoute(lower, IndexUpTo(lower, plan, i + 1).routes, plan.components[i])
  }

  function StagedPreferred(lower: string -> string, plan: BuildPlan, i: nat): Place
    requires i < |plan.components|
  {
    PreferredPlace(lower, StagedUpTo(lower, plan.components, i + 1).places, plan.components[i])
  }

  lemma ComponentPathIsPublished(lower: string -> string, plan: BuildPlan, i: nat)
    requires ContextsKnown(plan.components, plan.contexts) && i < |plan.components|
    ensures var key, routes := ComponentKey(lower, plan.components[i]), IndexUpTo(lower, plan, i + 1).routes;
      key in routes && routes[key].kind == PublishedRoute && KeyOf(lower, routes[key]) == key
  {
    PublishedListed(plan.components, i, PublishedOf(plan.components[i])[0]);
    PublishedRouted(lower, plan, i + 1, PublishedOf(plan.components[i])[0]);
    ValuesUpTo(lower, plan, i + 1, ComponentKey(lower, plan.components[i]));
  }

  /** A canonical path whose route is its own published or alias route is staged;
      one that only a context has is not. */
  lemma CanonicalKeyStaged(lower: string -> string, plan: BuildPlan, i: nat, key: RouteKey)
    requires ContextsKnown(plan.components, plan.contexts) && DistinctSlugs(plan.components) && i < |plan.components|
    requires CleanUpTo(lower, plan, i + 1) && key in IndexUpTo(lower, plan, i + 1).routes
    requires IndexUpTo(lower, plan, i + 1).routes[key].slug == plan.components[i].slug
    ensures var r, places := IndexUpTo(lower, plan, i + 1).routes[key], StagedUpTo(lower, plan.components, i + 1).places;
      && KeyOf(lower, r) == key && PlacedWell(lower, places, key)
      && (key in places <==> r.kind != ContextRoute)
  {
    var r := IndexUpTo(lower, plan, i + 1).routes[key];
    ValuesUpTo(lower, plan, i + 1, key);
    StagedComponentKeys(lower, plan.components, i + 1, key);
    if r.kind == ContextRoute {
      ContextKeyIsNotStaged(lower, plan, i + 1, key);
    } else {
      RouteOrigin(lower, plan, i + 1, key);
      OwnRouteIsStaged(lower, plan, i, r);
    }
  }

  /** Without collisions and with valid canonical paths, both sides prefer the same
      route for a component exactly when the canonical path is not that of a version
      context only. */
  lemma ComponentReferencesAgree(lower: string -> string, plan: BuildPlan, i: nat)
    requires ContextsKnown(plan.components, plan.contexts) && DistinctSlugs(plan.components) && i < |plan.components|
    requires ComponentPathsRouted(lower, plan, i + 1) && CleanUpTo(lower, plan, i + 1)
    ensures KeyOfPlace(lower, StagedPreferred(lower, plan, i)) == KeyOf(lower, EvaluatedPreferred(lower, plan, i))
      <==> EvaluatedPreferred(lower, plan, i).kind != ContextRoute
  {
    var c := plan.components[i];
    ComponentPathIsPublished(lower, plan, i);
    if c.publication.canonicalPath.Some? {
      CleanBefore(lower, plan, i);
      CanonicalKeyStaged(lower, plan, i, Key(lower, c.publication.origin, c.publication.canonicalPath.value));
    }
  }

  // All references of a plan

  lemma ComponentReferenceStart(slug: string, other: string)
    ensures ComponentReference(slug) != "" && ComponentReference(slug)[0] == 'c'
    ensures ComponentReference(slug) == ComponentReference(other) ==> slug == other
  {
    assert ComponentReference(slug)[10..] == slug && ComponentReference(other)[10..] == other;
  }

  lemma {:induction false} ComponentTarget(lower: string -> string, plan: BuildPlan, n: nat, i: nat)
    requires ContextsKnown(plan.components, plan.contexts) && i < n <= |plan.components|
    requires ComponentPathsRouted(lower, plan, n) && DistinctSlugs(plan.components)
    ensures var reference, targets := ComponentReference(plan.components[i].slug), TargetsUpTo(lower, plan, n);
      reference in targets && targets[reference] == EvaluatedPreferred(lower, plan, i)
  {
    if i < n - 1 {
      ComponentTarget(lower, plan, n - 1, i);
      ComponentReferenceStart(plan.components[i].slug, plan.components[n - 1].slug);
    }
  }

  lemma {:induction false} StagedTarget(lower: string -> string, plan: BuildPlan, n: nat, i: nat)
    requires i < n <= |plan.components| && DistinctSlugs(plan.components)
    ensures var reference, targets := ComponentReference(plan.components[i].slug), StagedUpTo(lower, plan.components, n).targets;
      reference in targets && targets[reference] == StagedPreferred(lower, plan, i)
  {
    if i < n - 1 {
      StagedTarget(lower, plan, n - 1, i);
      ComponentReferenceStart(plan.components[i].slug, plan.components[n - 1].slug);
    }
  }

  lemma {:induction false} ContextsKeepTarget(lower: string -> string, staged: Staged, components: seq<Component>, contexts: seq<Context>, reference: string)
    requires ContextsKnown(components, contexts) && reference != "" && reference[0] == 'c' && reference in staged.targets
    ensures var targets := StageContexts(lower, staged, components, contexts).targets;
      reference in targets && targets[reference] == staged.targets[reference]
  {
    if contexts != [] {
      var front, last := contexts[..|contexts| - 1], contexts[|contexts| - 1];
      ContextsKeepTarget(lower, staged, components, front, reference);
      if last.artifact.Some? && last.releaseLine.Some? {
        assert LineReference(last.slug, last.artifact.value, last.releaseLine.value)[0] == 'l';
      }
      if last.artifact.Some? && last.version.Some? {
        assert ReleaseReference(last.slug, last.artifact.value, last.version.value)[0] == 'r';
      }
    }
  }

  predicate NamesComponent(components: seq<Component>, n: nat, reference: string)
    requires n <= |components|
  {
    exists i :: 0 <= i < n && reference == ComponentReference(components[i].slug)
  }

  lemma {:induction false} OtherTarget(lower: string -> string, plan: BuildPlan, n: nat, reference: string)
    requires ContextsKnown(plan.components, plan.contexts) && n <= |plan.components| && ComponentPathsRouted(lower, plan, n)
    requires !NamesComponent(plan.components, n, reference)
    ensures var targets, own := TargetsUpTo(lower, plan, n), ContextTargets(plan.components, plan.contexts);
      (reference in targets <==> reference in own) && (reference in own ==> targets[reference] == own[reference])
  {
    if n > 0 { OtherTarget(lower, plan, n - 1, reference); }
  }

  lemma {:induction false} ContextTargetPlace(components: seq<Component>, contexts: seq<Context>, reference: string)
    requires ContextsKnown(components, contexts) && reference in ContextTargets(components, contexts)
    ensures reference != "" && reference[0] != 'c' && ContextTargets(components, contexts)[reference].kind == ContextRoute
  {
    var front, last := contexts[..|contexts| - 1], contexts[|contexts| - 1];
    if ReferenceOfContext(last) != Some(reference) {
      ContextTargetPlace(components, front, reference);
    } else if last.kind == LineHead {
      assert reference == LineReference(last.slug, Show(last.artifact), Show(last.releaseLine)) && reference[0] == 'l';
    } else {
      assert reference == ReleaseReference(last.slug, Show(last.artifact), Show(last.version)) && reference[0] == 'r';
    }
  }

  function Evaluated(lower: string -> string, plan: BuildPlan, origin: string, target: string): Option<KnownRoute>
    requires ContextsKnown(plan.components, plan.contexts) && ComponentPathsRouted(lower, plan, |plan.components|)
  {
    ResolveInternalReference(lower, EvaluatedIndex(lower, plan).routes, TargetsUpTo(lower, plan, |plan.components|), origin, target)
  }

  /** Staging resolves the target to the same origin and path up to case. */
  predicate StagedAlike(lower: string -> string, plan: BuildPlan, origin: string, target: string, r: KnownRoute)
    requires ContextsKnown(plan.components, plan.contexts)
  {
    var place := ResolvePlace(lower, StagedIndex(lower, plan), origin, target);
    place.Some? && KeyOfPlace(lower, place.value) == KeyOf(lower, r)
  }

  /** The target is not the source of another redirect, nor a component whose
      canonical path only a version context publishes. */
  predicate Settled(plan: BuildPlan, target: string, r: KnownRoute) {
    if IsRouteReference(target) then r.kind != RedirectRoute
    else NamesComponent(plan.components, |plan.components|, target) ==> r.kind != ContextRoute
  }

  /** What planning guarantees about a plan. */
  predicate WellPlanned(plan: BuildPlan) {
    && ContextsKnown(plan.components, plan.contexts) && DistinctSlugs(plan.components)
    && AllWellSelected(plan.contexts) && CandidatesFirst(plan.contexts)
  }

  lemma CleanEverywhere(lower: string -> string, plan: BuildPlan, n: nat)
    requires ContextsKnown(plan.components, plan.contexts) && n <= |plan.components| && EvaluatedIndex(lower, plan).diagnostics == []
    ensures CleanUpTo(lower, plan, n)
    decreases |plan.components| - n
  {
    if n == |plan.components| {
      ReportsGrow(lower, IndexUpTo(lower, plan, n), AllSources(plan.components));
    } else {
      CleanEverywhere(lower, plan, n + 1);
      CleanBefore(lower, plan, n);
    }
  }

  lemma ComponentTargetAgrees(lower: string -> string, plan: BuildPlan, origin: string, i: nat)
    requires WellPlanned(plan) && ComponentPathsRouted(lower, plan, |plan.components|) && i < |plan.components|
    requires EvaluatedIndex(lower, plan).diagnostics == []
    requires !IsRouteReference(ComponentReference(plan.components[i].slug))
    ensures var target := ComponentReference(plan.components[i].slug);
      Evaluated(lower, plan, origin, target).Some? ==>
        var r := Evaluated(lower, plan, origin, target).value;
        StagedAlike(lower, plan, origin, target, r) <==> r.kind != ContextRoute
  {
    var n := |plan.components|;
    ComponentTarget(lower, plan, n, i);
    StagedTarget(lower, plan, n, i);
    var reference := ComponentReference(plan.components[i].slug);
    ComponentReferenceStart(plan.components[i].slug, "");
    ContextsKeepTarget(lower, StagedUpTo(lower, plan.components, n), plan.components, plan.contexts, reference);
    CleanEverywhere(lower, plan, i + 1);
    ComponentReferencesAgree(lower, plan, i);
  }

  /** After an evaluation without collisions and canonical errors, staging resolves a
      reference the evaluation resolved, and alike, if and only if it is settled. */
  lemma ReferencesAgree(lower: string -> string, plan: BuildPlan, origin: string, target: string)
    requires WellPlanned(plan) && ComponentPathsRouted(lower, plan, |plan.components|)
    requires EvaluatedIndex(lower, plan).diagnostics == [] && Evaluated(lower, plan, origin, target).Some?
    ensures var r := Evaluated(lower, plan, origin, target).value;
      StagedAlike(lower, plan, origin, target, r) <==> Settled(plan, target, r)
  {
    var n := |plan.components|;
    if IsRouteReference(target) {
      RouteReferencesAgree(lower, plan, RouteKey(origin, lower(Payload(target))));
    } else if NamesComponent(plan.components, n, target) {
      var i :| 0 <= i < n && target == ComponentReference(plan.components[i].slug);
      ComponentTargetAgrees(lower, plan, origin, i);
    } else {
      OtherTarget(lower, plan, n, target);
      ContextReferencesAgree(lower, StagedUpTo(lower, plan.components, n), plan.components, plan.contexts, target);
    }
  }

  // All redirects of a plan

  lemma {:induction false} SameHops(components: seq<Component>, contexts: seq<Context>)
    requires ContextsKnown(components, contexts) && AllWellSelected(contexts)
    ensures StagedContextHops(components, contexts) == ContextHops(components, contexts)
  {
    if contexts != [] {
      assert WellSelected(contexts[|contexts| - 1]);
      SameHops(components, contexts[..|contexts| - 1]);
    }
  }

  lemma {:induction false} UnknownGrow(lower: string -> string, routes: RouteMap, targets: Targets, hops: seq<Hop>, i: nat)
    requires i < |hops| && LinkAll(lower, routes, targets, hops).unknown == [] && !IsExternal(hops[i].target)
    ensures ResolveInternalReference(lower, routes, targets, hops[i].origin, hops[i].target).Some?
  {
    if i < |hops| - 1 { UnknownGrow(lower, routes, targets, hops[..|hops| - 1], i); }
  }

  /** An evaluation that reports no collision, canonical error or unknown target. */
  predicate CleanEvaluation(lower: string -> string, plan: BuildPlan)
    requires ContextsKnown(plan.components, plan.contexts) && ComponentPathsRouted(lower, plan, |plan.components|)
  {
    var index := EvaluatedIndex(lower, plan);
    index.diagnostics == [] && LinkAll(lower, index.routes, TargetsUpTo(lower, plan, |plan.components|), HopsOf(plan)).unknown == []
  }

  /** A clean evaluation whose published targets do not collide and whose redirects
      have no loop: nothing in it keeps the plan from being staged. */
  ghost predicate PassesEvaluation(lower: string -> string, plan: BuildPlan)
    requires ContextsKnown(plan.components, plan.contexts) && ComponentPathsRouted(lower, plan, |plan.components|)
  {
    && CleanEvaluation(lower, plan) && PublishedApart(lower, plan.components)
    && forall n :: !OnCycle(RedirectEdges(lower, plan), n)
  }

  function RedirectEdges(lower: string -> string, plan: BuildPlan): map<RouteKey, RouteKey>
    requires ContextsKnown(plan.components, plan.contexts) && ComponentPathsRouted(lower, plan, |plan.components|)
  {
    LinkAll(lower, EvaluatedIndex(lower, plan).routes, TargetsUpTo(lower, plan, |plan.components|), HopsOf(plan)).edges
  }

  /** The origins of a redirect and of what it leads to are configured. */
  predicate OriginsKnown(lower: string -> string, plan: BuildPlan, origins: map<string, string>, h: Hop)
    requires ContextsKnown(plan.components, plan.contexts) && ComponentPathsRouted(lower, plan, |plan.components|)
  {
    var r := Evaluated(lower, plan, h.origin, h.target);
    h.origin in origins && (!IsExternal(h.target) && r.Some? ==> r.value.origin in origins)
  }

  /** The aggregate writes the redirect with the target the evaluation saw. */
  predicate WrittenAlike(lower: string -> string, plan: BuildPlan, origins: map<string, string>, h: Hop)
    requires ContextsKnown(plan.components, plan.contexts) && ComponentPathsRouted(lower, plan, |plan.components|)
  {
    && Writable(lower, StagedIndex(lower, plan), origins, h)
    && (IsExternal(h.target) || (var r := Evaluated(lower, plan, h.origin, h.target);
          r.Some? && StagedAlike(lower, plan, h.origin, h.target, r.value)))
  }

  /** After a clean evaluation the redirect aggregate can be written, every entry
      leading where the evaluation said, if and only if every internal redirect is settled. */
  lemma CleanEvaluationStages(lower: string -> string, plan: BuildPlan, origins: map<string, string>)
    requires WellPlanned(plan) && ComponentPathsRouted(lower, plan, |plan.components|) && CleanEvaluation(lower, plan)
    requires forall i :: 0 <= i < |HopsOf(plan)| ==> OriginsKnown(lower, plan, origins, HopsOf(plan)[i])
    ensures StagedHops(plan) == HopsOf(plan)
    ensures (forall i :: 0 <= i < |HopsOf(plan)| ==> WrittenAlike(lower, plan, origins, HopsOf(plan)[i]))
      <==> (forall i :: 0 <= i < |HopsOf(plan)| ==> HopSettled(lower, plan, HopsOf(plan)[i]))
  {
    SameHops(plan.components, plan.contexts);
    forall i | 0 <= i < |HopsOf(plan)|
      ensures WrittenAlike(lower, plan, origins, HopsOf(plan)[i]) <==> HopSettled(lower, plan, HopsOf(plan)[i])
    {
      HopAgrees(lower, plan, origins, i);
    }
  }

  predicate HopSettled(lower: string -> string, plan: BuildPlan, h: Hop)
    requires ContextsKnown(plan.components, plan.contexts) && ComponentPathsRouted(lower, plan, |plan.components|)
  {
    var r := Evaluated(lower, plan, h.origin, h.target);
    IsExternal(h.target) || (r.Some? && Settled(plan, h.target, r.value))
  }

  lemma HopAgrees(lower: string -> string, plan: BuildPlan, origins: map<string, string>, i: nat)
    requires WellPlanned(plan) && ComponentPathsRouted(lower, plan, |plan.components|) && CleanEvaluation(lower, plan)
    requires i < |HopsOf(plan)| && OriginsKnown(lower, plan, origins, HopsOf(plan)[i])
    ensures WrittenAlike(lower, plan, origins, HopsOf(plan)[i]) <==> HopSettled(lower, plan, HopsOf(plan)[i])
  {
    var h := HopsOf(plan)[i];
    if !IsExternal(h.target) {
      UnknownGrow(lower, EvaluatedIndex(lower, plan).routes, TargetsUpTo(lower, plan, |plan.components|), HopsOf(plan), i);
      ReferencesAgree(lower, plan, h.origin, h.target);
    }
  }

  /** The entry of a redirect leads from its path beneath the base of its origin to its
      external target, or to the path of the evaluated route, up to case, beneath the base
      of the route's origin. */
  ghost predicate LeadsWhereEvaluated(lower: string -> string, plan: BuildPlan, origins: map<string, string>, h: Hop, e: RedirectEntry)
    requires ContextsKnown(plan.components, plan.contexts) && ComponentPathsRouted(lower, plan, |plan.components|)
  {
    && h.origin in origins && RedirectIndex.Beneath(e.fromUrl, origins[h.origin], h.path)
    && if "http://" <= h.target || "https://" <= h.target then e.toUrl == h.target
       else
         var r := Evaluated(lower, plan, h.origin, h.target);
         r.Some? && r.value.origin in origins && BeneathUpToCase(lower, e.toUrl, origins[r.value.origin], r.value.path)
  }

  ghost predicate BeneathUpToCase(lower: string -> string, url: string, base: string, path: string) {
    exists p :: lower(p) == lower(path) && RedirectIndex.Beneath(url, base, p)
  }

  lemma EntryLeads(lower: string -> string, plan: BuildPlan, origins: map<string, string>, h: Hop, e: RedirectEntry)
    requires ContextsKnown(plan.components, plan.contexts) && ComponentPathsRouted(lower, plan, |plan.components|)
    requires WrittenAlike(lower, plan, origins, h) && Written(lower, StagedIndex(lower, plan), origins, h, e)
    ensures LeadsWhereEvaluated(lower, plan, origins, h, e)
  {
    if !IsExternal(h.target) {
      var place := ResolvePlace(lower, StagedIndex(lower, plan), h.origin, h.target).value;
      assert RedirectIndex.Beneath(e.toUrl, origins[place.origin], place.path);
    }
  }

  /** What the aggregate writes after a clean evaluation whose redirects are all settled:
      each entry leads where the evaluation said. */
  lemma SettledEntriesLead(lower: string -> string, plan: BuildPlan, origins: map<string, string>, entries: seq<RedirectEntry>)
    requires WellPlanned(plan) && ComponentPathsRouted(lower, plan, |plan.components|) && CleanEvaluation(lower, plan)
    requires forall i :: 0 <= i < |HopsOf(plan)| ==> OriginsKnown(lower, plan, origins, HopsOf(plan)[i])
    requires forall i :: 0 <= i < |HopsOf(plan)| ==> HopSettled(lower, plan, HopsOf(plan)[i])
    requires |entries| == |StagedHops(plan)|
    requires forall i :: 0 <= i < |entries| ==> Written(lower, StagedIndex(lower, plan), origins, StagedHops(plan)[i], entries[i])
    ensures |entries| == |HopsOf(plan)|
    ensures forall i :: 0 <= i < |entries| ==> LeadsWhereEvaluated(lower, plan, origins, HopsOf(plan)[i], entries[i])
  {
    CleanEvaluationStages(lower, plan, origins);
    forall i | 0 <= i < |entries| ensures LeadsWhereEvaluated(lower, plan, origins, HopsOf(plan)[i], entries[i]) {
      assert WrittenAlike(lower, plan, origins, HopsOf(plan)[i]);
      EntryLeads(lower, plan, origins, HopsOf(plan)[i], entries[i]);
    }
  }
}
