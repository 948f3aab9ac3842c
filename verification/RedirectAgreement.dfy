/** Evaluation and staging resolve redirects alike: two indexes built in different
    orders, from different tables, agree on every internal reference exactly when
    stated conditions hold. */
module RedirectAgreement {
  import opened Options
  import opened Paths
  import opened Plan
  import opened RedirectLoops
  import opened Routes
  import opened RouteValidation
  import opened RedirectIndex
  import opened Sorting

  // Keys of the staging index

  ghost predicate Listed(lower: string -> string, list: seq<KnownRoute>, key: RouteKey) {
    exists i :: 0 <= i < |list| && KeyOf(lower, list[i]) == key
  }

  lemma ListedConcat(lower: string -> string, a: seq<KnownRoute>, b: seq<KnownRoute>, key: RouteKey)
    ensures Listed(lower, a + b, key) <==> Listed(lower, a, key) || Listed(lower, b, key)
  {
    if i :| 0 <= i < |a| && KeyOf(lower, a[i]) == key { assert (a + b)[i] == a[i]; }
    if i :| 0 <= i < |b| && KeyOf(lower, b[i]) == key { assert (a + b)[|a| + i] == b[i]; }
  }

  lemma {:induction false} PlacedKeys(lower: string -> string, places: PlaceMap, list: seq<KnownRoute>, key: RouteKey)
    ensures key in IndexPlaces(lower, places, list) <==> key in places || Listed(lower, list, key)
    ensures key in IndexPlaces(lower, places, list) && (key in places ==> KeyOfPlace(lower, places[key]) == key) ==>
      KeyOfPlace(lower, IndexPlaces(lower, places, list)[key]) == key
  {
    if list != [] {
      var front, last := list[..|list| - 1], list[|list| - 1];
      PlacedKeys(lower, places, front, key);
      ListedConcat(lower, front, [last], key);
      assert list == front + [last];
      assert Listed(lower, [last], key) <==> KeyOf(lower, last) == key by { assert [last][0] == last; }
    }
  }

  /** Some published or alias route of the first n components has this key. */
  ghost predicate ComponentRoute(lower: string -> string, components: seq<Component>, n: nat, key: RouteKey)
    requires n <= |components|
  {
    n > 0 && (ComponentRoute(lower, components, n - 1, key) || Listed(lower, RoutesOfComponent(components[n - 1]), key))
  }

  ghost predicate PlacedWell(lower: string -> string, places: PlaceMap, key: RouteKey) {
    key in places ==> KeyOfPlace(lower, places[key]) == key
  }

  lemma StagedStep(lower: string -> string, components: seq<Component>, n: nat, key: RouteKey)
    requires n < |components| && PlacedWell(lower, StagedUpTo(lower, components, n).places, key)
    ensures var before, after := StagedUpTo(lower, components, n).places, StagedUpTo(lower, components, n + 1).places;
      PlacedWell(lower, after, key) && (key in after <==> key in before || Listed(lower, RoutesOfComponent(components[n]), key))
  {
    PlacedKeys(lower, StagedUpTo(lower, components, n).places, RoutesOfComponent(components[n]), key);
  }

  lemma {:induction false} StagedComponentKeys(lower: string -> string, components: seq<Component>, n: nat, key: RouteKey)
    requires n <= |components|
    ensures key in StagedUpTo(lower, components, n).places <==> ComponentRoute(lower, components, n, key)
    ensures PlacedWell(lower, StagedUpTo(lower, components, n).places, key)
  {
    if n > 0 {
      StagedComponentKeys(lower, components, n - 1, key);
      StagedStep(lower, components, n - 1, key);
    }
  }

  lemma {:induction false} StagedContextKeys(lower: string -> string, staged: Staged, components: seq<Component>, contexts: seq<Context>, key: RouteKey)
    requires ContextsKnown(components, contexts)
    requires PlacedWell(lower, staged.places, key)
    ensures var all := StageContexts(lower, staged, components, contexts).places;
      PlacedWell(lower, all, key) && (key in all <==> key in staged.places || Listed(lower, ContextRoutes(components, contexts), key))
  {
    if contexts != [] {
      var front, last := contexts[..|contexts| - 1], contexts[|contexts| - 1];
      StagedContextKeys(lower, staged, components, front, key);
      var r := RouteOfContext(components, last);
      ListedConcat(lower, ContextRoutes(components, front), [r], key);
      assert Listed(lower, [r], key) <==> KeyOf(lower, r) == key by { assert [r][0] == r; }
    }
  }

  ghost predicate StagedRoute(lower: string -> string, plan: BuildPlan, key: RouteKey)
    requires ContextsKnown(plan.components, plan.contexts)
  {
    || ComponentRoute(lower, plan.components, |plan.components|, key)
    || Listed(lower, ContextRoutes(plan.components, plan.contexts), key)
  }

  lemma StagedKeys(lower: string -> string, plan: BuildPlan, key: RouteKey)
    requires ContextsKnown(plan.components, plan.contexts)
    ensures var places := StagedIndex(lower, plan).places;
      && (key in places <==> StagedRoute(lower, plan, key))
      && PlacedWell(lower, places, key)
  {
    StagedComponentKeys(lower, plan.components, |plan.components|, key);
    StagedContextKeys(lower, StagedUpTo(lower, plan.components, |plan.components|), plan.components, plan.contexts, key);
  }

  // Keys of the evaluation index

  lemma ListedMembers(lower: string -> string, list: seq<KnownRoute>, key: RouteKey)
    ensures Listed(lower, list, key) <==> exists r :: r in list && KeyOf(lower, r) == key
  {
    if r :| r in list && KeyOf(lower, r) == key {
      var i :| 0 <= i < |list| && list[i] == r;
    }
  }

  ghost predicate PublishedUpTo(lower: string -> string, components: seq<Component>, n: nat, key: RouteKey)
    requires n <= |components|
  {
    n > 0 && (PublishedUpTo(lower, components, n - 1, key) || Listed(lower, PublishedOf(components[n - 1]), key))
  }

  ghost predicate AliasUpTo(lower: string -> string, components: seq<Component>, n: nat, key: RouteKey)
    requires n <= |components|
  {
    && n > 0
    && (AliasUpTo(lower, components, n - 1, key)
        || Listed(lower, AliasRoutes(components[n - 1], components[n - 1].publication.aliases), key))
  }

  lemma {:induction false} PublishedOrAlias(lower: string -> string, components: seq<Component>, n: nat, key: RouteKey)
    requires n <= |components|
    ensures ComponentRoute(lower, components, n, key) <==> PublishedUpTo(lower, components, n, key) || AliasUpTo(lower, components, n, key)
  {
    if n > 0 {
      PublishedOrAlias(lower, components, n - 1, key);
      var c := components[n - 1];
      ListedConcat(lower, PublishedOf(c), AliasRoutes(c, c.publication.aliases), key);
    }
  }

  lemma {:induction false} PublishedKeys(lower: string -> string, components: seq<Component>, n: nat, key: RouteKey)
    requires n <= |components|
    ensures Listed(lower, AllPublished(components[..n]), key) <==> PublishedUpTo(lower, components, n, key)
  {
    if n > 0 {
      PublishedKeys(lower, components, n - 1, key);
      assert components[..n][..n - 1] == components[..n - 1];
      ListedConcat(lower, AllPublished(components[..n - 1]), PublishedOf(components[n - 1]), key);
    }
  }

  /** A published, context or alias route of the first n components has this key. */
  ghost predicate RouteUpTo(lower: string -> string, plan: BuildPlan, n: nat, key: RouteKey)
    requires ContextsKnown(plan.components, plan.contexts) && n <= |plan.components|
  {
    || PublishedUpTo(lower, plan.components, |plan.components|, key)
    || Listed(lower, ContextRoutes(plan.components, plan.contexts), key)
    || AliasUpTo(lower, plan.components, n, key)
  }

  lemma FirstKeys(lower: string -> string, plan: BuildPlan, key: RouteKey)
    requires ContextsKnown(plan.components, plan.contexts)
    ensures key in PublishedAndContexts(lower, plan).routes <==> RouteUpTo(lower, plan, 0, key)
  {
    ContextRouted(lower, plan, key);
    ListedMembers(lower, AllPublished(plan.components), key);
    ListedMembers(lower, ContextRoutes(plan.components, plan.contexts), key);
    PublishedKeys(lower, plan.components, |plan.components|, key);
    assert plan.components[..|plan.components|] == plan.components;
  }

  lemma NextKeys(lower: string -> string, plan: BuildPlan, n: nat, key: RouteKey)
    requires ContextsKnown(plan.components, plan.contexts) && n < |plan.components|
    ensures var c := plan.components[n];
      key in IndexUpTo(lower, plan, n + 1).routes
      <==> key in IndexUpTo(lower, plan, n).routes || Listed(lower, AliasRoutes(c, c.publication.aliases), key)
  {
    IndexStep(lower, plan, n, key);
    ListedMembers(lower, AliasRoutes(plan.components[n], plan.components[n].publication.aliases), key);
  }

  /** Two properties that agree at 0 and step alike agree everywhere. */
  lemma {:induction false} StepAlike(p: nat -> bool, q: nat -> bool, n: nat)
    requires p(0) == q(0) && forall i :: 0 <= i < n && p(i) == q(i) ==> p(i + 1) == q(i + 1)
    ensures p(n) == q(n)
  {
    if n > 0 { StepAlike(p, q, n - 1); }
  }

  /** The keys before redirect sources are registered. */
  lemma EvaluatedKeys(lower: string -> string, plan: BuildPlan, n: nat, key: RouteKey)
    requires ContextsKnown(plan.components, plan.contexts) && n <= |plan.components|
    ensures key in IndexUpTo(lower, plan, n).routes <==> RouteUpTo(lower, plan, n, key)
  {
    FirstKeys(lower, plan, key);
    forall i | 0 <= i < n
      ensures var c := plan.components[i];
        key in IndexUpTo(lower, plan, i + 1).routes
        <==> key in IndexUpTo(lower, plan, i).routes || Listed(lower, AliasRoutes(c, c.publication.aliases), key)
    {
      NextKeys(lower, plan, i, key);
    }
    StepAlike((i: nat) => i <= |plan.components| && key in IndexUpTo(lower, plan, i).routes,
              (i: nat) => i <= |plan.components| && RouteUpTo(lower, plan, i, key), n);
  }

  // Route references

  lemma {:induction false} AliasKind(c: Component, aliases: seq<Alias>, r: KnownRoute)
    requires r in AliasRoutes(c, aliases)
    ensures r.kind == AliasRoute && r.slug == c.slug
  {
    if r in AliasRoutes(c, aliases[..|aliases| - 1]) { AliasKind(c, aliases[..|aliases| - 1], r); }
  }

  lemma {:induction false} ContextKind(components: seq<Component>, contexts: seq<Context>, r: KnownRoute)
    requires ContextsKnown(components, contexts) && r in ContextRoutes(components, contexts)
    ensures r.kind == ContextRoute
  {
    var front := contexts[..|contexts| - 1];
    if r in ContextRoutes(components, front) { ContextKind(components, front, r); }
  }

  lemma {:induction false} SourceKind(components: seq<Component>, r: KnownRoute)
    requires r in AllSources(components)
    ensures r.kind == RedirectRoute
  {
    var front, last := components[..|components| - 1], components[|components| - 1];
    if r in AllSources(front) { SourceKind(front, r); } else { RedirectKind(last, last.publication.redirects, r); }
  }

  lemma {:induction false} RedirectKind(c: Component, redirects: seq<Redirect>, r: KnownRoute)
    requires r in SourceRoutes(c, redirects)
    ensures r.kind == RedirectRoute
  {
    var front := redirects[..|redirects| - 1];
    if r in SourceRoutes(c, front) { RedirectKind(c, front, r); }
  }

  ghost predicate Resolvable(lower: string -> string, routes: RouteMap, key: RouteKey) {
    key in routes ==> KeyOf(lower, routes[key]) == key && routes[key].kind != RedirectRoute
  }

  lemma FirstValues(lower: string -> string, plan: BuildPlan, key: RouteKey)
    requires ContextsKnown(plan.components, plan.contexts)
    ensures Resolvable(lower, PublishedAndContexts(lower, plan).routes, key)
  {
    var published := AssignAll(lower, AllPublished(plan.components));
    AssignedKeys(lower, AllPublished(plan.components), key);
    RegisteredKeys(lower, Index(published, []), ContextRoutes(plan.components, plan.contexts), key);
    var routes := PublishedAndContexts(lower, plan).routes;
    if key in published {
      AllPublishedKind(plan.components, published[key]);
    } else if key in routes {
      ContextKind(plan.components, plan.contexts, routes[key]);
    }
  }

  lemma NextValues(lower: string -> string, plan: BuildPlan, n: nat, key: RouteKey)
    requires ContextsKnown(plan.components, plan.contexts) && n < |plan.components|
    requires Resolvable(lower, IndexUpTo(lower, plan, n).routes, key)
    ensures Resolvable(lower, IndexUpTo(lower, plan, n + 1).routes, key)
  {
    IndexStep(lower, plan, n, key);
    var c, after := plan.components[n], IndexUpTo(lower, plan, n + 1).routes;
    if key in after && key !in IndexUpTo(lower, plan, n).routes { AliasKind(c, c.publication.aliases, after[key]); }
  }

  lemma {:induction false} ValuesUpTo(lower: string -> string, plan: BuildPlan, n: nat, key: RouteKey)
    requires ContextsKnown(plan.components, plan.contexts) && n <= |plan.components|
    ensures Resolvable(lower, IndexUpTo(lower, plan, n).routes, key)
  {
    if n == 0 {
      FirstValues(lower, plan, key);
    } else {
      ValuesUpTo(lower, plan, n - 1, key);
      NextValues(lower, plan, n - 1, key);
    }
  }

  /** Redirect sources only occupy keys nothing else has. */
  lemma EvaluatedValue(lower: string -> string, plan: BuildPlan, key: RouteKey)
    requires ContextsKnown(plan.components, plan.contexts)
    ensures var routes, own := EvaluatedIndex(lower, plan).routes, IndexUpTo(lower, plan, |plan.components|).routes;
      && (key in routes ==> KeyOf(lower, routes[key]) == key)
      && (key in own <==> key in routes && routes[key].kind != RedirectRoute)
  {
    var own := IndexUpTo(lower, plan, |plan.components|);
    RegisteredKeys(lower, own, AllSources(plan.components), key);
    ValuesUpTo(lower, plan, |plan.components|, key);
    var routes := EvaluatedIndex(lower, plan).routes;
    if key in routes && key !in own.routes { SourceKind(plan.components, routes[key]); }
  }

  /** Staging resolves a route path exactly when the evaluation does and not to the
      source of another redirect; both mean the same origin and path up to case. */
  lemma RouteReferencesAgree(lower: string -> string, plan: BuildPlan, key: RouteKey)
    requires ContextsKnown(plan.components, plan.contexts)
    ensures var routes, places := EvaluatedIndex(lower, plan).routes, StagedIndex(lower, plan).places;
      && (key in places <==> key in routes && routes[key].kind != RedirectRoute)
      && (key in places ==> KeyOfPlace(lower, places[key]) == key == KeyOf(lower, routes[key]))
  {
    var n := |plan.components|;
    EvaluatedValue(lower, plan, key);
    EvaluatedKeys(lower, plan, n, key);
    PublishedOrAlias(lower, plan.components, n, key);
    StagedKeys(lower, plan, key);
  }

  // Release and line references

  /** Which references a selected context can answer to, by kind (planning/selection.py). */
  predicate WellSelected(c: Context) {
    && (Redirects(c) ==> c.kind == Released)
    && (c.releaseLine.Some? <==> c.kind == LineHead)
    && (c.version.Some? <==> c.kind == Released || c.kind == Candidate)
    && (c.kind == Released || c.kind == Candidate || c.kind == LineHead ==> c.artifact.Some?)
    && NoSlash(c.slug) && (c.artifact.Some? ==> '@' !in c.artifact.value)
  }

  predicate AllWellSelected(contexts: seq<Context>) { forall i :: 0 <= i < |contexts| ==> WellSelected(contexts[i]) }

  function KindText(kind: Kind): string {
    match kind
    case Development => "development"
    case NamedRef => "namedRef"
    case LineHead => "lineHead"
    case Candidate => "candidate"
    case Released => "released"
  }

  function OrEmpty(text: Option<string>): string { if text.Some? then text.value else "" }

  function ContextSortKey(c: Context): seq<string> {
    [c.slug, OrEmpty(c.artifact), KindText(c.kind), OrEmpty(c.releaseLine), OrEmpty(c.version), OrEmpty(c.namedRef), OrEmpty(c.ref)]
  }

  /** Tuples of strings, compared from the left. */
  predicate TupleLe(a: seq<string>, b: seq<string>) {
    a == [] || (b != [] && (if a[0] != b[0] then StringLe(a[0], b[0]) else TupleLe(a[1..], b[1..])))
  }

  predicate ContextLe(a: Context, b: Context) { TupleLe(ContextSortKey(a), ContextSortKey(b)) }

  /** Tuples compare at the first place where they differ. */
  lemma {:induction false} TupleOrder(a: seq<string>, b: seq<string>, k: nat)
    requires k < |a| && k < |b| && (forall i :: 0 <= i < k ==> a[i] == b[i]) && a[k] != b[k]
    ensures TupleLe(a, b) <==> StringLe(a[k], b[k])
  {
    if k > 0 { TupleOrder(a[1..], b[1..], k - 1); }
  }

  lemma {:induction false} EqualTuples(a: seq<string>)
    ensures TupleLe(a, a)
  {
    if a != [] { EqualTuples(a[1..]); }
  }

  /** No candidate follows a release of the same artifact. */
  predicate CandidatesFirst(contexts: seq<Context>) {
    forall i, j :: 0 <= i < j < |contexts| && contexts[i].kind == Released && contexts[j].kind == Candidate ==>
      contexts[i].slug != contexts[j].slug || contexts[i].artifact != contexts[j].artifact
  }

  lemma KindsInOrder(c: Context, d: Context)
    requires ContextLe(c, d) && c.slug == d.slug && c.artifact == d.artifact
    ensures StringLe(KindText(c.kind), KindText(d.kind))
  {
    var a, b := ContextSortKey(c), ContextSortKey(d);
    assert TupleLe(a[1..], b[1..]) && TupleLe(a[1..][1..], b[1..][1..]);
    assert a[1..][1..][0] == KindText(c.kind) && b[1..][1..][0] == KindText(d.kind);
    if a[1..][1..][0] == b[1..][1..][0] { StringLeTotal(KindText(c.kind), KindText(d.kind)); }
  }

  /** The order of selection puts candidates before releases. */
  lemma SelectionOrderPutsCandidatesFirst(contexts: seq<Context>)
    requires Sorted(contexts, ContextLe)
    ensures CandidatesFirst(contexts)
  {
    forall i, j | 0 <= i < j < |contexts| && contexts[i].slug == contexts[j].slug && contexts[i].artifact == contexts[j].artifact
      ensures StringLe(KindText(contexts[i].kind), KindText(contexts[j].kind))
    {
      KindsInOrder(contexts[i], contexts[j]);
    }
    assert !StringLe(KindText(Released), KindText(Candidate)) by { assert "released"[0] == 'r' && "candidate"[0] == 'c'; }
  }

  lemma SplitsOnce(c: char, x: string, y: string, x': string, y': string)
    requires x + [c] + y == x' + [c] + y' && c !in x && c !in x'
    ensures x == x' && y == y'
  {
    var whole := x + [c] + y;
    assert whole[|x|] == c && whole[|x'|] == c;
    assert forall k :: 0 <= k < |x| ==> whole[k] == x[k] && x[k] in x;
    assert forall k :: 0 <= k < |x'| ==> whole[k] == x'[k] && x'[k] in x';
    assert |x| == |x'|;
    assert x == whole[..|x|] && y == whole[|x| + 1..];
  }

  lemma ReleaseReferenceInjective(s: string, a: string, v: string, s': string, a': string, v': string)
    requires NoSlash(s) && NoSlash(s') && '@' !in a && '@' !in a'
    requires ReleaseReference(s, a, v) == ReleaseReference(s', a', v')
    ensures s == s' && a == a' && v == v'
  {
    var r, r' := s + ['/'] + (a + "@" + v), s' + ['/'] + (a' + "@" + v');
    assert ReleaseReference(s, a, v) == "release:" + r && ReleaseReference(s', a', v') == "release:" + r';
    assert r == ("release:" + r)[8..] && r' == ("release:" + r')[8..];
    SplitsOnce('/', s, a + "@" + v, s', a' + "@" + v');
    SplitsOnce('@', a, v, a', v');
  }

  lemma {:induction false} TargetSource(components: seq<Component>, contexts: seq<Context>, reference: string)
    requires ContextsKnown(components, contexts) && reference in ContextTargets(components, contexts)
    ensures exists k :: 0 <= k < |contexts| && ReferenceOfContext(contexts[k]) == Some(reference)
  {
    var front, last := contexts[..|contexts| - 1], contexts[|contexts| - 1];
    if ReferenceOfContext(last) != Some(reference) {
      TargetSource(components, front, reference);
      var k :| 0 <= k < |front| && ReferenceOfContext(front[k]) == Some(reference);
      assert contexts[k] == front[k];
    }
  }

  /** A candidate takes over no reference that an earlier context answers to. */
  lemma CandidateTakesNothing(contexts: seq<Context>, k: nat)
    requires k < |contexts| - 1 && AllWellSelected(contexts) && CandidatesFirst(contexts)
    requires contexts[|contexts| - 1].kind == Candidate
    ensures var last := contexts[|contexts| - 1];
      ReferenceOfContext(contexts[k]) != Some(ReleaseReference(last.slug, last.artifact.value, last.version.value))
  {
    var c, last := contexts[k], contexts[|contexts| - 1];
    assert WellSelected(c) && WellSelected(last);
    var taken := ReleaseReference(last.slug, last.artifact.value, last.version.value);
    assert taken[0] == 'r';
    if c.kind == LineHead {
      assert LineReference(c.slug, Show(c.artifact), Show(c.releaseLine))[0] == 'l';
    } else if c.kind == Released && ReferenceOfContext(c) == Some(taken) {
      ReleaseReferenceInjective(c.slug, c.artifact.value, c.version.value, last.slug, last.artifact.value, last.version.value);
      assert false;
    }
  }

  function PlaceOf(r: KnownRoute): Place { Place(r.origin, r.path) }

  lemma LastReference(lower: string -> string, staged: Staged, components: seq<Component>, contexts: seq<Context>, reference: string)
    requires ContextsKnown(components, contexts) && contexts != [] && AllWellSelected(contexts) && CandidatesFirst(contexts)
    requires reference in ContextTargets(components, contexts)
    ensures var last := contexts[|contexts| - 1];
      var before := StageContexts(lower, staged, components, contexts[..|contexts| - 1]).targets;
      var after := StageContexts(lower, staged, components, contexts).targets;
      if ReferenceOfContext(last) == Some(reference) then reference in after && after[reference] == PlaceOfContext(components, last)
      else reference in before ==> reference in after && after[reference] == before[reference]
  {
    var last := contexts[|contexts| - 1];
    assert WellSelected(last);
    if last.kind == Candidate {
      TargetSource(components, contexts, reference);
      var k :| 0 <= k < |contexts| && ReferenceOfContext(contexts[k]) == Some(reference);
      CandidateTakesNothing(contexts, k);
    }
  }

  /** Line and release references mean the same context on both sides; for releases
      this needs candidates to come first. */
  lemma {:induction false} ContextReferencesAgree(
      lower: string -> string, staged: Staged, components: seq<Component>, contexts: seq<Context>, reference: string)
    requires ContextsKnown(components, contexts) && AllWellSelected(contexts) && CandidatesFirst(contexts)
    requires reference in ContextTargets(components, contexts)
    ensures var targets := StageContexts(lower, staged, components, contexts).targets;
      reference in targets && targets[reference] == PlaceOf(ContextTargets(components, contexts)[reference])
  {
    var front, last := contexts[..|contexts| - 1], contexts[|contexts| - 1];
    LastReference(lower, staged, components, contexts, reference);
    if ReferenceOfContext(last) != Some(reference) {
      assert forall i :: 0 <= i < |front| ==> front[i] == contexts[i];
      ContextReferencesAgree(lower, staged, components, front, reference);
    }
  }
}
