/** What the redirects of a plan start from and lead to (evaluation/routes.py,
    evaluation/reference_index.py), read off the plan itself. */
module TargetMeaning {
  import opened Options
  import opened Paths
  import opened Plan
  import opened RedirectLoops
  import opened Routes
  import opened RouteValidation
  import opened RouteCollisions
  import opened RedirectIndex
  import opened RedirectAgreement
  import opened RedirectResolution

  // Published targets

  /** A component publishes at its own path and at those of its development docs, its
      assets and its docs, each once; docs on the development path are not listed again. */
  lemma PublishedPaths(c: Component, r: KnownRoute)
    ensures r in PublishedOf(c) <==>
      && r.origin == c.publication.origin && r.slug == c.slug && r.kind == PublishedRoute
      && (r.path == c.publication.componentPath || r.path == c.publication.developmentPath
          || r.path == c.publication.assetsPath || r.path == c.publication.docsPath)
    ensures |PublishedOf(c)| == if c.publication.docsPath == c.publication.developmentPath then 3 else 4
  {
  }

  // Aliases, redirect sources and redirects

  /** An authored origin counts unless it is missing or empty. */
  predicate LiesAt(authored: Option<string>, own: string, origin: string) {
    if authored == None || authored == Some("") then origin == own else authored == Some(origin)
  }

  lemma {:induction false} AliasAt(c: Component, aliases: seq<Alias>, k: nat)
    requires k < |aliases|
    ensures |AliasRoutes(c, aliases)| == |aliases|
    ensures var r := AliasRoutes(c, aliases)[k];
      LiesAt(aliases[k].origin, c.publication.origin, r.origin) && r.path == aliases[k].path && r.slug == c.slug && r.kind == AliasRoute
  {
    AliasCount(c, aliases[..|aliases| - 1]);
    if k < |aliases| - 1 { AliasAt(c, aliases[..|aliases| - 1], k); }
  }

  lemma {:induction false} AliasCount(c: Component, aliases: seq<Alias>)
    ensures |AliasRoutes(c, aliases)| == |aliases|
  {
    if aliases != [] { AliasCount(c, aliases[..|aliases| - 1]); }
  }

  lemma {:induction false} RedirectCount(c: Component, redirects: seq<Redirect>)
    ensures |SourceRoutes(c, redirects)| == |redirects| && |RedirectHops(c, redirects)| == |redirects|
  {
    if redirects != [] { RedirectCount(c, redirects[..|redirects| - 1]); }
  }

  /** Each authored redirect is a source route and a redirect from there to its target. */
  lemma {:induction false} RedirectAt(c: Component, redirects: seq<Redirect>, k: nat)
    requires k < |redirects|
    ensures |SourceRoutes(c, redirects)| == |redirects| && |RedirectHops(c, redirects)| == |redirects|
    ensures var r, h, authored := SourceRoutes(c, redirects)[k], RedirectHops(c, redirects)[k], redirects[k];
      && LiesAt(authored.fromOrigin, c.publication.origin, r.origin) && r.path == authored.fromPath && r.slug == c.slug && r.kind == RedirectRoute
      && h.origin == r.origin && h.path == authored.fromPath && h.target == authored.target
  {
    RedirectCount(c, redirects[..|redirects| - 1]);
    if k < |redirects| - 1 { RedirectAt(c, redirects[..|redirects| - 1], k); }
  }

  /** A redirect from its path, at its own origin or else that of the component, to its target. */
  predicate AuthoredAs(c: Component, authored: Redirect, h: Hop) {
    LiesAt(authored.fromOrigin, c.publication.origin, h.origin) && h.path == authored.fromPath && h.target == authored.target
  }

  lemma {:induction false} RedirectHopsListed(c: Component, redirects: seq<Redirect>, h: Hop)
    ensures h in RedirectHops(c, redirects) <==> exists k :: 0 <= k < |redirects| && AuthoredAs(c, redirects[k], h)
  {
    if redirects != [] {
      var front, last := redirects[..|redirects| - 1], redirects[|redirects| - 1];
      RedirectHopsListed(c, front, h);
      assert forall k :: 0 <= k < |front| ==> front[k] == redirects[k];
      assert AuthoredAs(c, last, h) <==> h == Hop(OriginOr(last.fromOrigin, c.publication.origin), last.fromPath, last.target);
    }
  }

  ghost predicate SomeAuthored(c: Component, h: Hop) {
    exists k :: 0 <= k < |c.publication.redirects| && AuthoredAs(c, c.publication.redirects[k], h)
  }

  /** The redirects of components are the authored ones. */
  lemma {:induction false} ComponentHopsListed(components: seq<Component>, h: Hop)
    ensures h in ComponentHops(components) <==> exists i :: 0 <= i < |components| && SomeAuthored(components[i], h)
  {
    if components != [] {
      var front, last := components[..|components| - 1], components[|components| - 1];
      ComponentHopsListed(front, h);
      RedirectHopsListed(last, last.publication.redirects, h);
      assert forall i :: 0 <= i < |front| ==> front[i] == components[i];
    }
  }

  /** A version context that redirects once it is withdrawn, from its public path. */
  predicate WithdrawnTo(components: seq<Component>, c: Context, h: Hop) {
    var owner := FindComponent(components, c.slug);
    && c.redirectsWhenWithdrawn && c.redirectTarget == Some(h.target)
    && owner.Some? && h.origin == owner.value.publication.origin && h.path == PublicPath(owner.value.publication, c)
  }

  lemma WithdrawnHop(components: seq<Component>, c: Context, h: Hop)
    requires FindComponent(components, c.slug).Some?
    ensures WithdrawnTo(components, c, h) <==> Redirects(c) && h == HopOfContext(components, c)
  {
  }

  /** The redirects of version contexts are those of the withdrawn ones with a target. */
  lemma {:induction false} ContextHopsListed(components: seq<Component>, contexts: seq<Context>, h: Hop)
    requires ContextsKnown(components, contexts)
    ensures h in ContextHops(components, contexts) <==> exists k :: 0 <= k < |contexts| && WithdrawnTo(components, contexts[k], h)
  {
    if contexts != [] {
      var front, last := contexts[..|contexts| - 1], contexts[|contexts| - 1];
      ContextHopsListed(components, front, h);
      assert forall k :: 0 <= k < |front| ==> front[k] == contexts[k];
      WithdrawnHop(components, last, h);
    }
  }

  predicate WithdrawnRelease(components: seq<Component>, c: Context, h: Hop) { c.kind == Released && WithdrawnTo(components, c, h) }

  /** Staging takes the releases among them. */
  lemma {:induction false} StagedContextHopsListed(components: seq<Component>, contexts: seq<Context>, h: Hop)
    requires ContextsKnown(components, contexts)
    ensures h in StagedContextHops(components, contexts) <==> exists k :: 0 <= k < |contexts| && WithdrawnRelease(components, contexts[k], h)
  {
    if contexts != [] {
      var front, last := contexts[..|contexts| - 1], contexts[|contexts| - 1];
      StagedContextHopsListed(components, front, h);
      assert forall k :: 0 <= k < |front| ==> front[k] == contexts[k];
      WithdrawnHop(components, last, h);
    }
  }

  // Route targets

  lemma {:induction false} FirstColonIsFirst(s: string)
    ensures var colon := FirstColon(s);
      if colon.Some? then colon.value < |s| && s[colon.value] == ':' && ':' !in s[..colon.value] else ':' !in s
  {
    if s != "" && s[0] != ':' {
      FirstColonIsFirst(s[1..]);
      assert s == [s[0]] + s[1..];
      if FirstColon(s[1..]).Some? { assert s[..FirstColon(s[1..]).value + 1] == [s[0]] + s[1..][..FirstColon(s[1..]).value]; }
    }
  }

  predicate IsRouteTarget(t: string) { "route:" <= t }

  lemma RouteTargets(t: string)
    ensures IsRouteReference(t) <==> IsRouteTarget(t)
    ensures IsRouteTarget(t) ==> Payload(t) == t[6..]
  {
    FirstColonIsFirst(t);
    if IsRouteTarget(t) { RouteStart(t); }
  }

  lemma RouteStart(t: string)
    requires IsRouteTarget(t)
    ensures FirstColon(t) == Some(5) && t[..5] == "route"
  {
    FirstColonIsFirst(t);
    assert t[0] == 'r' && t[1] == 'o' && t[2] == 'u' && t[3] == 't' && t[4] == 'e' && t[5] == ':';
    assert t[..5] == "route";
    var k := FirstColon(t).value;
    assert forall i :: 0 <= i < k ==> t[i] in t[..k];
  }

  /** A route target means the route that holds its path, at the origin of the redirect. */
  lemma RouteTargetMeaning(lower: string -> string, plan: BuildPlan, origin: string, t: string)
    requires ContextsKnown(plan.components, plan.contexts) && ComponentPathsRouted(lower, plan, |plan.components|) && IsRouteTarget(t)
    ensures var published, registered, key := AllPublished(plan.components), Registered(plan), RouteKey(origin, lower(t[6..]));
      var r := Evaluated(lower, plan, origin, t);
      && (r.Some? <==> SomeAt(lower, published, key) || SomeAt(lower, registered, key))
      && (r.Some? ==> Holds(lower, published, registered, key, r.value))
  {
    RouteTargets(t);
    RouteStart(t);
    EvaluatedHolders(lower, plan, RouteKey(origin, lower(t[6..])));
  }

  // Component targets

  predicate NamesIt(c: Component, t: string) { t == "component:" + c.slug }

  lemma ComponentTextHasColon(c: Component, t: string)
    requires NamesIt(c, t)
    ensures FirstColon(t).Some? && !IsRouteReference(t) && t == ComponentReference(c.slug)
  {
    FirstColonIsFirst(t);
    assert t[9] == ':' && t[9] in t;
    RouteTargets(t);
    assert t[0] == 'c' && "route:"[0] == 'r';
  }

  /** A component target means the route at the canonical path of the component, if that
      is one of its own, or else the one at its component path. */
  lemma ComponentTargetMeaning(lower: string -> string, plan: BuildPlan, origin: string, t: string, i: nat)
    requires ContextsKnown(plan.components, plan.contexts) && ComponentPathsRouted(lower, plan, |plan.components|)
    requires DistinctSlugs(plan.components) && i < |plan.components| && NamesIt(plan.components[i], t)
    ensures var c, r := plan.components[i], Evaluated(lower, plan, origin, t);
      var p := if c.publication.canonicalPath.Some? && !CanonicalMissing(lower, plan, i) then c.publication.canonicalPath.value else c.publication.componentPath;
      r.Some? && Holds(lower, AllPublished(plan.components), Before(plan, i + 1), RouteKey(c.publication.origin, lower(p)), r.value)
  {
    var c, n := plan.components[i], |plan.components|;
    ComponentTextHasColon(c, t);
    ComponentTarget(lower, plan, n, i);
    CanonicalCheck(lower, plan, i);
    HolderInTable(lower, plan, i + 1, Key(lower, c.publication.origin, c.publication.componentPath));
    if c.publication.canonicalPath.Some? { HolderInTable(lower, plan, i + 1, Key(lower, c.publication.origin, c.publication.canonicalPath.value)); }
  }

  // Line and release targets

  /** The text a line head or a release answers to. */
  predicate AnswersTo(c: Context, t: string) {
    && c.artifact.Some?
    && ((c.kind == LineHead && c.releaseLine.Some? && t == "line:" + c.slug + "/" + c.artifact.value + "@" + c.releaseLine.value)
        || (c.kind == Released && c.version.Some? && t == "release:" + c.slug + "/" + c.artifact.value + "@" + c.version.value))
  }

  lemma AnswerIsReference(c: Context, t: string)
    requires WellSelected(c)
    ensures AnswersTo(c, t) <==> ReferenceOfContext(c) == Some(t)
  {
  }

  /** The last context of the selection that answers to the text. */
  ghost predicate LastToAnswer(contexts: seq<Context>, t: string, k: nat) {
    k < |contexts| && AnswersTo(contexts[k], t) && forall m :: k < m < |contexts| ==> !AnswersTo(contexts[m], t)
  }

  lemma {:induction false} ContextTargetTexts(components: seq<Component>, contexts: seq<Context>, t: string)
    requires ContextsKnown(components, contexts) && AllWellSelected(contexts)
    ensures t in ContextTargets(components, contexts) <==> exists k :: 0 <= k < |contexts| && AnswersTo(contexts[k], t)
  {
    if contexts != [] {
      var front, last := contexts[..|contexts| - 1], contexts[|contexts| - 1];
      ContextTargetTexts(components, front, t);
      assert WellSelected(last);
      AnswerIsReference(last, t);
      assert forall k :: 0 <= k < |front| ==> front[k] == contexts[k];
    }
  }

  lemma {:induction false} LastAnswer(components: seq<Component>, contexts: seq<Context>, t: string, k: nat)
    requires ContextsKnown(components, contexts) && AllWellSelected(contexts) && LastToAnswer(contexts, t, k)
    ensures t in ContextTargets(components, contexts) && ContextTargets(components, contexts)[t] == RouteOfContext(components, contexts[k])
  {
    var front, last := contexts[..|contexts| - 1], contexts[|contexts| - 1];
    assert WellSelected(last);
    AnswerIsReference(last, t);
    if k < |front| { LastAnswer(components, front, t, k); }
  }

  lemma AnswerText(c: Context, t: string)
    requires AnswersTo(c, t)
    ensures FirstColon(t).Some? && !IsRouteReference(t) && t[0] != 'c'
  {
    FirstColonIsFirst(t);
    RouteTargets(t);
    if c.kind == LineHead {
      assert t[0] == 'l' && t[4] == ':' && t[4] in t;
    } else {
      assert t[0] == 'r' && t[2] == 'l' && t[7] == ':' && t[7] in t;
    }
    assert "route:"[0] == 'r' && "route:"[2] == 'u';
  }

  /** A line or release target means the public path of the last selected context that
      answers to it. */
  lemma ContextTargetMeaning(lower: string -> string, plan: BuildPlan, origin: string, t: string, k: nat)
    requires ContextsKnown(plan.components, plan.contexts) && ComponentPathsRouted(lower, plan, |plan.components|)
    requires AllWellSelected(plan.contexts) && LastToAnswer(plan.contexts, t, k)
    ensures Evaluated(lower, plan, origin, t) == Some(RouteOfContext(plan.components, plan.contexts[k]))
  {
    AnswerText(plan.contexts[k], t);
    LastAnswer(plan.components, plan.contexts, t, k);
    if i :| 0 <= i < |plan.components| && t == ComponentReference(plan.components[i].slug) { ComponentReferenceStart(plan.components[i].slug, ""); }
    OtherTarget(lower, plan, |plan.components|, t);
  }

  /** Any other target means nothing. */
  lemma OtherTargetMeaning(lower: string -> string, plan: BuildPlan, origin: string, t: string)
    requires ContextsKnown(plan.components, plan.contexts) && ComponentPathsRouted(lower, plan, |plan.components|)
    requires AllWellSelected(plan.contexts) && !IsRouteTarget(t)
    requires forall i :: 0 <= i < |plan.components| ==> !NamesIt(plan.components[i], t)
    requires forall k :: 0 <= k < |plan.contexts| ==> !AnswersTo(plan.contexts[k], t)
    ensures Evaluated(lower, plan, origin, t) == None
  {
    RouteTargets(t);
    ContextTargetTexts(plan.components, plan.contexts, t);
    assert forall i :: 0 <= i < |plan.components| ==> t != ComponentReference(plan.components[i].slug);
    OtherTarget(lower, plan, |plan.components|, t);
  }

  // What is reported, and where redirects lead

  predicate IsWebTarget(t: string) { "http://" <= t || "https://" <= t }

  /** An internal redirect whose target means nothing. */
  predicate LeadsNowhere(lower: string -> string, routes: RouteMap, targets: Targets, h: Hop) {
    !IsWebTarget(h.target) && ResolveInternalReference(lower, routes, targets, h.origin, h.target).None?
  }

  ghost predicate ReportsUnknown(lower: string -> string, routes: RouteMap, targets: Targets, hops: seq<Hop>, reports: seq<RouteDiagnostic>, at: seq<nat>) {
    && |reports| == |at|
    && (forall k :: 0 <= k < |at| ==> at[k] < |hops| && reports[k] == TargetUnknown(SourceKey(lower, hops[at[k]]), hops[at[k]].target))
    && (forall k, m :: 0 <= k < m < |at| ==> at[k] < at[m])
    && (forall i :: 0 <= i < |hops| ==> (i in at <==> LeadsNowhere(lower, routes, targets, hops[i])))
  }

  lemma UnknownNext(lower: string -> string, routes: RouteMap, targets: Targets, hops: seq<Hop>)
    requires hops != []
    ensures var h := hops[|hops| - 1];
      LinkAll(lower, routes, targets, hops).unknown == LinkAll(lower, routes, targets, hops[..|hops| - 1]).unknown
        + if LeadsNowhere(lower, routes, targets, h) then [TargetUnknown(SourceKey(lower, h), h.target)] else []
  {
  }

  lemma OneMoreUnknown(lower: string -> string, routes: RouteMap, targets: Targets, hops: seq<Hop>, reports: seq<RouteDiagnostic>, at: seq<nat>)
    requires hops != [] && ReportsUnknown(lower, routes, targets, hops[..|hops| - 1], reports, at)
    ensures var h := hops[|hops| - 1];
      if LeadsNowhere(lower, routes, targets, h)
      then ReportsUnknown(lower, routes, targets, hops, reports + [TargetUnknown(SourceKey(lower, h), h.target)], at + [|hops| - 1])
      else ReportsUnknown(lower, routes, targets, hops, reports, at)
  {
  }

  /** An evaluation reports one unknown target for each internal redirect that leads nowhere. */
  lemma {:induction false} UnknownIsExact(lower: string -> string, routes: RouteMap, targets: Targets, hops: seq<Hop>) returns (at: seq<nat>)
    ensures ReportsUnknown(lower, routes, targets, hops, LinkAll(lower, routes, targets, hops).unknown, at)
  {
    at := [];
    if hops != [] {
      var n := |hops| - 1;
      at := UnknownIsExact(lower, routes, targets, hops[..n]);
      UnknownNext(lower, routes, targets, hops);
      OneMoreUnknown(lower, routes, targets, hops, LinkAll(lower, routes, targets, hops[..n]).unknown, at);
      if LeadsNowhere(lower, routes, targets, hops[n]) { at := at + [n]; }
    }
  }

  /** The last internal redirect from the key that leads anywhere. */
  ghost predicate LastFrom(lower: string -> string, routes: RouteMap, targets: Targets, hops: seq<Hop>, key: RouteKey, i: nat) {
    && i < |hops| && LeadsOn(lower, routes, targets, hops[i], key)
    && forall k :: i < k < |hops| ==> !LeadsOn(lower, routes, targets, hops[k], key)
  }

  predicate LeadsOn(lower: string -> string, routes: RouteMap, targets: Targets, h: Hop, key: RouteKey) {
    && h.origin == key.origin && lower(h.path) == key.path && !IsWebTarget(h.target)
    && ResolveInternalReference(lower, routes, targets, h.origin, h.target).Some?
  }

  lemma {:induction false} EdgeKeys(lower: string -> string, routes: RouteMap, targets: Targets, hops: seq<Hop>, key: RouteKey)
    ensures key in LinkAll(lower, routes, targets, hops).edges <==> exists i :: 0 <= i < |hops| && LeadsOn(lower, routes, targets, hops[i], key)
  {
    if hops != [] {
      var front, last := hops[..|hops| - 1], hops[|hops| - 1];
      EdgeKeys(lower, routes, targets, front, key);
      LinkStep(lower, routes, targets, LinkAll(lower, routes, targets, front), last, key);
      assert forall i :: 0 <= i < |front| ==> front[i] == hops[i];
    }
  }

  lemma LinkStep(lower: string -> string, routes: RouteMap, targets: Targets, links: Links, h: Hop, key: RouteKey)
    ensures var after := Link(lower, routes, targets, links, h).edges;
      if LeadsOn(lower, routes, targets, h, key)
      then key in after && after[key] == KeyOf(lower, ResolveInternalReference(lower, routes, targets, h.origin, h.target).value)
      else (key in after <==> key in links.edges) && (key in after ==> after[key] == links.edges[key])
  {
    assert SourceKey(lower, h) == key <==> h.origin == key.origin && lower(h.path) == key.path;
  }

  /** The edges of the loop check start from each key that some internal redirect leads
      on from, and lead where the last of them does. */
  lemma {:induction false} EdgesAreExact(lower: string -> string, routes: RouteMap, targets: Targets, hops: seq<Hop>, key: RouteKey, i: nat)
    requires LastFrom(lower, routes, targets, hops, key, i)
    ensures var edges := LinkAll(lower, routes, targets, hops).edges;
      key in edges && edges[key] == KeyOf(lower, ResolveInternalReference(lower, routes, targets, hops[i].origin, hops[i].target).value)
  {
    var front, last := hops[..|hops| - 1], hops[|hops| - 1];
    LinkStep(lower, routes, targets, LinkAll(lower, routes, targets, front), last, key);
    if i < |front| { EdgesAreExact(lower, routes, targets, front, key, i); }
  }
}
