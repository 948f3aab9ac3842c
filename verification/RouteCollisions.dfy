/** Which routes an evaluation reports as colliding (evaluation/routes.py), over the
    list of all routes of a plan instead of the table that registration fills. */
module RouteCollisions {
  import opened Options
  import opened Plan
  import opened RedirectLoops
  import opened Routes
  import opened RouteValidation

  /** The routes registered after the published targets, in order. */
  function Registered(plan: BuildPlan): seq<KnownRoute>
    requires ContextsKnown(plan.components, plan.contexts)
  {
    ContextRoutes(plan.components, plan.contexts) + AllAliases(plan.components) + AllSources(plan.components)
  }

  // Who holds a key

  ghost predicate SomeAt(lower: string -> string, list: seq<KnownRoute>, key: RouteKey) {
    exists k :: 0 <= k < |list| && KeyOf(lower, list[k]) == key
  }

  ghost predicate LastAt(lower: string -> string, list: seq<KnownRoute>, key: RouteKey, h: KnownRoute) {
    exists m :: 0 <= m < |list| && list[m] == h && KeyOf(lower, h) == key
      && forall k :: m < k < |list| ==> KeyOf(lower, list[k]) != key
  }

  ghost predicate FirstAt(lower: string -> string, list: seq<KnownRoute>, key: RouteKey, h: KnownRoute) {
    exists m :: 0 <= m < |list| && list[m] == h && KeyOf(lower, h) == key
      && forall k :: 0 <= k < m ==> KeyOf(lower, list[k]) != key
  }

  /** The last published target at a key holds it, or else the first registered route. */
  ghost predicate Holds(lower: string -> string, published: seq<KnownRoute>, registered: seq<KnownRoute>, key: RouteKey, h: KnownRoute) {
    if SomeAt(lower, published, key) then LastAt(lower, published, key, h) else FirstAt(lower, registered, key, h)
  }

  lemma OneHolder(lower: string -> string, published: seq<KnownRoute>, registered: seq<KnownRoute>, key: RouteKey, g: KnownRoute, h: KnownRoute)
    requires Holds(lower, published, registered, key, g) && Holds(lower, published, registered, key, h)
    ensures g == h
  {
    var list := if SomeAt(lower, published, key) then published else registered;
    var m :| 0 <= m < |list| && list[m] == g && KeyOf(lower, g) == key;
    var n :| 0 <= n < |list| && list[n] == h && KeyOf(lower, h) == key;
  }

  lemma {:induction false} AssignedIsLast(lower: string -> string, list: seq<KnownRoute>, key: RouteKey)
    ensures key in AssignAll(lower, list) <==> SomeAt(lower, list, key)
    ensures key in AssignAll(lower, list) ==> LastAt(lower, list, key, AssignAll(lower, list)[key])
  {
    if list != [] {
      var front, last := list[..|list| - 1], list[|list| - 1];
      AssignedIsLast(lower, front, key);
      assert list == front + [last];
      if KeyOf(lower, last) == key {
        assert list[|front|] == last;
      } else if key in AssignAll(lower, front) {
        var h := AssignAll(lower, front)[key];
        var m :| 0 <= m < |front| && front[m] == h && KeyOf(lower, h) == key && forall k :: m < k < |front| ==> KeyOf(lower, front[k]) != key;
        assert list[m] == h;
      }
    }
  }

  function Start(lower: string -> string, published: seq<KnownRoute>): Index { Index(AssignAll(lower, published), []) }

  /** The table has a route at the key exactly when some route of the lists has it, and then the holder. */
  ghost predicate Held(lower: string -> string, published: seq<KnownRoute>, list: seq<KnownRoute>, routes: RouteMap, key: RouteKey) {
    && (key in routes <==> SomeAt(lower, published, key) || SomeAt(lower, list, key))
    && (key in routes ==> Holds(lower, published, list, key, routes[key]))
  }

  lemma {:induction false} RegisteredHolders(lower: string -> string, published: seq<KnownRoute>, list: seq<KnownRoute>, key: RouteKey)
    ensures Held(lower, published, list, RegisterAll(lower, Start(lower, published), list).routes, key)
  {
    AssignedIsLast(lower, published, key);
    if list != [] {
      var front, last := list[..|list| - 1], list[|list| - 1];
      RegisteredHolders(lower, published, front, key);
      HolderStep(lower, published, front, last, RegisterAll(lower, Start(lower, published), front), key);
      assert list == front + [last];
    }
  }

  lemma HolderStep(lower: string -> string, published: seq<KnownRoute>, front: seq<KnownRoute>, last: KnownRoute, before: Index, key: RouteKey)
    requires Held(lower, published, front, before.routes, key)
    ensures Held(lower, published, front + [last], Register(lower, before, last).routes, key)
  {
    SomeAtAppend(lower, front, last, key);
    if key in before.routes {
      if !SomeAt(lower, published, key) { FirstStays(lower, front, last, key, before.routes[key]); }
    } else if KeyOf(lower, last) == key {
      FirstComes(lower, front, last);
    }
  }

  lemma FirstComes(lower: string -> string, list: seq<KnownRoute>, r: KnownRoute)
    requires !SomeAt(lower, list, KeyOf(lower, r))
    ensures FirstAt(lower, list + [r], KeyOf(lower, r), r)
  {
    assert (list + [r])[|list|] == r;
  }

  lemma SomeAtAppend(lower: string -> string, list: seq<KnownRoute>, r: KnownRoute, key: RouteKey)
    ensures SomeAt(lower, list + [r], key) <==> SomeAt(lower, list, key) || KeyOf(lower, r) == key
  {
    if k :| 0 <= k < |list| && KeyOf(lower, list[k]) == key { assert (list + [r])[k] == list[k]; }
    assert (list + [r])[|list|] == r;
  }

  lemma FirstStays(lower: string -> string, list: seq<KnownRoute>, r: KnownRoute, key: RouteKey, h: KnownRoute)
    requires FirstAt(lower, list, key, h)
    ensures FirstAt(lower, list + [r], key, h)
  {
    var m :| 0 <= m < |list| && list[m] == h && KeyOf(lower, h) == key && forall k :: 0 <= k < m ==> KeyOf(lower, list[k]) != key;
    assert (list + [r])[m] == h;
  }

  // What is reported

  /** A version context may share the key of a published target or context of its component. */
  predicate MayShare(held: KnownRoute, r: KnownRoute) {
    r.kind == ContextRoute && held.slug == r.slug && held.kind != AliasRoute && held.kind != RedirectRoute
  }

  /** The key of the i-th route is held by a route it may not share it with. */
  ghost predicate Collides(lower: string -> string, published: seq<KnownRoute>, list: seq<KnownRoute>, i: nat) {
    i < |list| && exists h :: Holds(lower, published, list[..i], KeyOf(lower, list[i]), h) && !MayShare(h, list[i])
  }

  /** One report for each route that collides, in order, and no other. */
  ghost predicate ReportsCollisions(
      lower: string -> string, published: seq<KnownRoute>, list: seq<KnownRoute>, reports: seq<RouteDiagnostic>, at: seq<nat>) {
    && |reports| == |at|
    && (forall k :: 0 <= k < |at| ==> at[k] < |list| && reports[k] == RouteCollision(KeyOf(lower, list[at[k]])))
    && (forall k, n :: 0 <= k < n < |at| ==> at[k] < at[n])
    && (forall i :: 0 <= i < |list| ==> (i in at <==> Collides(lower, published, list, i)))
  }

  lemma CollisionStep(lower: string -> string, published: seq<KnownRoute>, list: seq<KnownRoute>)
    requires list != []
    ensures var front, last := list[..|list| - 1], list[|list| - 1];
      RegisterAll(lower, Start(lower, published), list).diagnostics == RegisterAll(lower, Start(lower, published), front).diagnostics
        + if Collides(lower, published, list, |front|) then [RouteCollision(KeyOf(lower, last))] else []
  {
    var front, last := list[..|list| - 1], list[|list| - 1];
    var before, key := RegisterAll(lower, Start(lower, published), front), KeyOf(lower, last);
    RegisteredHolders(lower, published, front, key);
    assert RegisterAll(lower, Start(lower, published), list) == Register(lower, before, last);
    if h :| Holds(lower, published, front, key, h) {
      HolderListed(lower, published, front, key, h);
      OneHolder(lower, published, front, key, before.routes[key], h);
    }
  }

  lemma HolderListed(lower: string -> string, published: seq<KnownRoute>, list: seq<KnownRoute>, key: RouteKey, h: KnownRoute)
    requires Holds(lower, published, list, key, h)
    ensures SomeAt(lower, published, key) || SomeAt(lower, list, key)
  {
  }

  lemma {:induction false} RegistrationReports(lower: string -> string, published: seq<KnownRoute>, list: seq<KnownRoute>) returns (at: seq<nat>)
    ensures ReportsCollisions(lower, published, list, RegisterAll(lower, Start(lower, published), list).diagnostics, at)
  {
    at := [];
    if list != [] {
      var front := list[..|list| - 1];
      at := RegistrationReports(lower, published, front);
      CollisionStep(lower, published, list);
      forall i | 0 <= i < |front| ensures Collides(lower, published, list, i) <==> Collides(lower, published, front, i) {
        assert list[..i] == front[..i];
      }
      if Collides(lower, published, list, |front|) { at := at + [|front|]; }
    }
  }

  // The evaluation as a whole

  function CollisionsIn(diagnostics: seq<RouteDiagnostic>): seq<RouteDiagnostic> {
    if diagnostics == [] then []
    else
      var last := diagnostics[|diagnostics| - 1];
      CollisionsIn(diagnostics[..|diagnostics| - 1]) + if last.RouteCollision? then [last] else []
  }

  lemma CollisionsAppend(diagnostics: seq<RouteDiagnostic>, d: RouteDiagnostic)
    ensures CollisionsIn(diagnostics + [d]) == CollisionsIn(diagnostics) + if d.RouteCollision? then [d] else []
  {
    assert (diagnostics + [d])[..|diagnostics|] == diagnostics;
  }

  /** The same routes and collisions; one of them may have other reports in between. */
  ghost predicate SameCollisions(a: Index, b: Index) { a.routes == b.routes && CollisionsIn(a.diagnostics) == b.diagnostics }

  lemma {:induction false} RegistersAlike(lower: string -> string, a: Index, b: Index, list: seq<KnownRoute>)
    requires SameCollisions(a, b)
    ensures SameCollisions(RegisterAll(lower, a, list), RegisterAll(lower, b, list))
  {
    if list != [] {
      var front, last := list[..|list| - 1], list[|list| - 1];
      RegistersAlike(lower, a, b, front);
      CollisionsAppend(RegisterAll(lower, a, front).diagnostics, RouteCollision(KeyOf(lower, last)));
    }
  }

  function Before(plan: BuildPlan, n: nat): seq<KnownRoute>
    requires ContextsKnown(plan.components, plan.contexts) && n <= |plan.components|
  {
    ContextRoutes(plan.components, plan.contexts) + AllAliases(plan.components[..n])
  }

  lemma BeforeStep(plan: BuildPlan, n: nat)
    requires ContextsKnown(plan.components, plan.contexts) && n < |plan.components|
    ensures Before(plan, n + 1) == Before(plan, n) + AliasRoutes(plan.components[n], plan.components[n].publication.aliases)
  {
    assert plan.components[..n + 1][..n] == plan.components[..n];
  }

  lemma CanonicalKeepsCollisions(lower: string -> string, index: Index, c: Component, other: Index)
    requires SameCollisions(index, other)
    ensures SameCollisions(CheckCanonical(lower, index, c), other)
  {
    CollisionsAppend(index.diagnostics, CanonicalInvalid(c.slug));
  }

  function AliasesAt(plan: BuildPlan, n: nat): seq<KnownRoute>
    requires n < |plan.components|
  {
    AliasRoutes(plan.components[n], plan.components[n].publication.aliases)
  }

  lemma ComponentCollisions(lower: string -> string, plan: BuildPlan, n: nat, other: Index)
    requires ContextsKnown(plan.components, plan.contexts) && n < |plan.components| && SameCollisions(IndexUpTo(lower, plan, n), other)
    ensures SameCollisions(IndexUpTo(lower, plan, n + 1), RegisterAll(lower, other, AliasesAt(plan, n)))
  {
    var registered := RegisterAll(lower, IndexUpTo(lower, plan, n), AliasesAt(plan, n));
    RegistersAlike(lower, IndexUpTo(lower, plan, n), other, AliasesAt(plan, n));
    CanonicalKeepsCollisions(lower, registered, plan.components[n], RegisterAll(lower, other, AliasesAt(plan, n)));
  }

  ghost predicate CollidesAlike(lower: string -> string, plan: BuildPlan, n: nat)
    requires ContextsKnown(plan.components, plan.contexts) && n <= |plan.components|
  {
    SameCollisions(IndexUpTo(lower, plan, n), RegisterAll(lower, Start(lower, AllPublished(plan.components)), Before(plan, n)))
  }

  lemma FirstCollisions(lower: string -> string, plan: BuildPlan)
    requires ContextsKnown(plan.components, plan.contexts)
    ensures CollidesAlike(lower, plan, 0)
  {
    var start := Start(lower, AllPublished(plan.components));
    assert Before(plan, 0) == ContextRoutes(plan.components, plan.contexts);
    RegistersAlike(lower, start, start, Before(plan, 0));
  }

  lemma NextCollisions(lower: string -> string, plan: BuildPlan, n: nat)
    requires ContextsKnown(plan.components, plan.contexts) && n < |plan.components| && CollidesAlike(lower, plan, n)
    ensures CollidesAlike(lower, plan, n + 1)
  {
    var start := Start(lower, AllPublished(plan.components));
    ComponentCollisions(lower, plan, n, RegisterAll(lower, start, Before(plan, n)));
    BeforeStep(plan, n);
    RegisterConcat(lower, start, Before(plan, n), AliasesAt(plan, n));
  }

  lemma {:induction false} IndexCollisions(lower: string -> string, plan: BuildPlan, n: nat)
    requires ContextsKnown(plan.components, plan.contexts) && n <= |plan.components|
    ensures CollidesAlike(lower, plan, n)
  {
    if n == 0 {
      FirstCollisions(lower, plan);
    } else {
      IndexCollisions(lower, plan, n - 1);
      NextCollisions(lower, plan, n - 1);
    }
  }

  lemma EvaluatedCollisions(lower: string -> string, plan: BuildPlan)
    requires ContextsKnown(plan.components, plan.contexts)
    ensures SameCollisions(EvaluatedIndex(lower, plan), RegisterAll(lower, Start(lower, AllPublished(plan.components)), Registered(plan)))
  {
    var start, n := Start(lower, AllPublished(plan.components)), |plan.components|;
    IndexCollisions(lower, plan, n);
    assert plan.components[..n] == plan.components;
    RegistersAlike(lower, IndexUpTo(lower, plan, n), RegisterAll(lower, start, Before(plan, n)), AllSources(plan.components));
    RegisterConcat(lower, start, Before(plan, n), AllSources(plan.components));
  }

  /** An evaluation reports one collision for each version context, alias and redirect
      source whose key is held by an earlier route, unless it is a context and the holder
      a published target or context of the same component. */
  lemma CollisionsAreExact(lower: string -> string, plan: BuildPlan) returns (at: seq<nat>)
    requires ContextsKnown(plan.components, plan.contexts)
    ensures ReportsCollisions(lower, AllPublished(plan.components), Registered(plan), CollisionsIn(EvaluatedIndex(lower, plan).diagnostics), at)
  {
    EvaluatedCollisions(lower, plan);
    at := RegistrationReports(lower, AllPublished(plan.components), Registered(plan));
  }

  /** The table of an evaluation has the holder of every key. */
  lemma EvaluatedHolders(lower: string -> string, plan: BuildPlan, key: RouteKey)
    requires ContextsKnown(plan.components, plan.contexts)
    ensures Held(lower, AllPublished(plan.components), Registered(plan), EvaluatedIndex(lower, plan).routes, key)
  {
    EvaluatedCollisions(lower, plan);
    RegisteredHolders(lower, AllPublished(plan.components), Registered(plan), key);
  }

  // Plans without collisions

  /** Whatever shares a key with an earlier route may do so. */
  ghost predicate SharesAllowed(lower: string -> string, published: seq<KnownRoute>, list: seq<KnownRoute>) {
    && (forall i, k :: 0 <= i < |list| && 0 <= k < |published| && KeyOf(lower, published[k]) == KeyOf(lower, list[i]) ==> MayShare(published[k], list[i]))
    && (forall i, j :: 0 <= j < i < |list| && KeyOf(lower, list[j]) == KeyOf(lower, list[i]) ==> MayShare(list[j], list[i]))
  }

  ghost predicate TargetsApart(lower: string -> string, published: seq<KnownRoute>) {
    forall i, k :: 0 <= i < k < |published| ==> KeyOf(lower, published[i]) != KeyOf(lower, published[k])
  }

  lemma AllowedDoesNotCollide(lower: string -> string, published: seq<KnownRoute>, list: seq<KnownRoute>, i: nat)
    requires SharesAllowed(lower, published, list)
    ensures !Collides(lower, published, list, i)
  {
    if i < |list| {
      forall h | Holds(lower, published, list[..i], KeyOf(lower, list[i]), h) ensures MayShare(h, list[i]) {
        HolderAmong(lower, published, list[..i], KeyOf(lower, list[i]), h);
      }
    }
  }

  lemma HolderAmong(lower: string -> string, published: seq<KnownRoute>, list: seq<KnownRoute>, key: RouteKey, h: KnownRoute)
    requires Holds(lower, published, list, key, h)
    ensures KeyOf(lower, h) == key && ((exists k :: 0 <= k < |published| && published[k] == h) || (exists k :: 0 <= k < |list| && list[k] == h))
  {
  }

  /** With published targets apart, no route collides if and only if every shared key is
      that of a version context sharing it with published targets and contexts of its component. */
  lemma NoCollisionIsExact(lower: string -> string, published: seq<KnownRoute>, list: seq<KnownRoute>)
    requires TargetsApart(lower, published) && forall r :: r in published ==> r.kind == PublishedRoute
    ensures (forall i :: 0 <= i < |list| ==> !Collides(lower, published, list, i)) <==> SharesAllowed(lower, published, list)
  {
    if SharesAllowed(lower, published, list) {
      forall i | 0 <= i < |list| ensures !Collides(lower, published, list, i) { AllowedDoesNotCollide(lower, published, list, i); }
    }
    if forall i :: 0 <= i < |list| ==> !Collides(lower, published, list, i) {
      forall i, k | 0 <= i < |list| && 0 <= k < |published| && KeyOf(lower, published[k]) == KeyOf(lower, list[i])
        ensures MayShare(published[k], list[i])
      {
        OnlyPublishedAt(lower, published, list[..i], k);
        assert !Collides(lower, published, list, i);
      }
      forall i, j | 0 <= j < i < |list| && KeyOf(lower, list[j]) == KeyOf(lower, list[i]) ensures MayShare(list[j], list[i]) {
        EarlierMayShare(lower, published, list, j, i);
      }
    }
  }

  lemma OnlyPublishedAt(lower: string -> string, published: seq<KnownRoute>, list: seq<KnownRoute>, k: nat)
    requires TargetsApart(lower, published) && k < |published|
    ensures Holds(lower, published, list, KeyOf(lower, published[k]), published[k])
  {
  }

  lemma EarlierMayShare(lower: string -> string, published: seq<KnownRoute>, list: seq<KnownRoute>, j: nat, i: nat)
    requires j < i < |list| && KeyOf(lower, list[j]) == KeyOf(lower, list[i])
    requires !Collides(lower, published, list, i) && !Collides(lower, published, list, j)
    ensures MayShare(list[j], list[i])
  {
    var key := KeyOf(lower, list[i]);
    var h := HolderExists(lower, published, list[..i], j);
    assert MayShare(h, list[i]);
    if h != list[j] {
      SameHolder(lower, published, list, j, i, h);
      assert MayShare(h, list[j]);
    }
  }

  lemma HolderExists(lower: string -> string, published: seq<KnownRoute>, list: seq<KnownRoute>, j: nat) returns (h: KnownRoute)
    requires j < |list|
    ensures Holds(lower, published, list, KeyOf(lower, list[j]), h)
  {
    var key := KeyOf(lower, list[j]);
    RegisteredHolders(lower, published, list, key);
    h := RegisterAll(lower, Start(lower, published), list).routes[key];
  }

  lemma SameHolder(lower: string -> string, published: seq<KnownRoute>, list: seq<KnownRoute>, j: nat, i: nat, h: KnownRoute)
    requires j < i < |list| && KeyOf(lower, list[j]) == KeyOf(lower, list[i]) && h != list[j]
    requires Holds(lower, published, list[..i], KeyOf(lower, list[i]), h)
    ensures Holds(lower, published, list[..j], KeyOf(lower, list[j]), h)
  {
    var key := KeyOf(lower, list[i]);
    if !SomeAt(lower, published, key) {
      var m :| 0 <= m < i && list[..i][m] == h && KeyOf(lower, h) == key && forall k :: 0 <= k < m ==> KeyOf(lower, list[..i][k]) != key;
      assert list[..i][j] == list[j];
      assert list[..j][m] == h;
    }
  }

  lemma ApartOnKeys(lower: string -> string, components: seq<Component>)
    requires PublishedApart(lower, components)
    ensures TargetsApart(lower, AllPublished(components))
  {
    var published := AllPublished(components);
    var keys := Routes.KeysOf(lower, published);
    forall i, k | 0 <= i < k < |published| ensures KeyOf(lower, published[i]) != KeyOf(lower, published[k]) {
      assert keys[i] != keys[k];
    }
  }

  lemma {:induction false} AllPublishedAre(components: seq<Component>)
    ensures forall r :: r in AllPublished(components) ==> r.kind == PublishedRoute
  {
    forall r | r in AllPublished(components) ensures r.kind == PublishedRoute { AllPublishedKind(components, r); }
  }

  /** A plan whose published targets are apart has no collision if and only if every key
      used again is that of a version context that shares it with published targets and
      contexts of its own component. */
  lemma PlanWithoutCollisions(lower: string -> string, plan: BuildPlan)
    requires ContextsKnown(plan.components, plan.contexts) && PublishedApart(lower, plan.components)
    ensures CollisionsIn(EvaluatedIndex(lower, plan).diagnostics) == [] <==> SharesAllowed(lower, AllPublished(plan.components), Registered(plan))
  {
    var list := Registered(plan);
    var at := CollisionsAreExact(lower, plan);
    AllPublishedAre(plan.components);
    ApartOnKeys(lower, plan.components);
    NoCollisionIsExact(lower, AllPublished(plan.components), list);
    if at != [] { assert at[0] in at; }
  }

  // Canonical paths

  function CanonicalsIn(diagnostics: seq<RouteDiagnostic>): seq<RouteDiagnostic> {
    if diagnostics == [] then []
    else
      var last := diagnostics[|diagnostics| - 1];
      CanonicalsIn(diagnostics[..|diagnostics| - 1]) + if last.CanonicalInvalid? then [last] else []
  }

  lemma CanonicalsAppend(diagnostics: seq<RouteDiagnostic>, d: RouteDiagnostic)
    ensures CanonicalsIn(diagnostics + [d]) == CanonicalsIn(diagnostics) + if d.CanonicalInvalid? then [d] else []
  {
    assert (diagnostics + [d])[..|diagnostics|] == diagnostics;
  }

  lemma {:induction false} RegistrationKeepsCanonicals(lower: string -> string, index: Index, list: seq<KnownRoute>)
    ensures CanonicalsIn(RegisterAll(lower, index, list).diagnostics) == CanonicalsIn(index.diagnostics)
  {
    if list != [] {
      var front, last := list[..|list| - 1], list[|list| - 1];
      RegistrationKeepsCanonicals(lower, index, front);
      CanonicalsAppend(RegisterAll(lower, index, front).diagnostics, RouteCollision(KeyOf(lower, last)));
    }
  }

  /** The canonical path of the component is no route of its own among the published
      targets, the contexts and the aliases of the components up to it. */
  ghost predicate CanonicalMissing(lower: string -> string, plan: BuildPlan, i: nat)
    requires ContextsKnown(plan.components, plan.contexts) && i < |plan.components|
  {
    var c := plan.components[i];
    c.publication.canonicalPath.Some?
    && forall h :: Holds(lower, AllPublished(plan.components), Before(plan, i + 1), Key(lower, c.publication.origin, c.publication.canonicalPath.value), h)
         ==> h.slug != c.slug
  }

  ghost predicate ReportsCanonicals(lower: string -> string, plan: BuildPlan, n: nat, reports: seq<RouteDiagnostic>, at: seq<nat>)
    requires ContextsKnown(plan.components, plan.contexts) && n <= |plan.components|
  {
    && |reports| == |at|
    && (forall k :: 0 <= k < |at| ==> at[k] < n && reports[k] == CanonicalInvalid(plan.components[at[k]].slug))
    && (forall k, m :: 0 <= k < m < |at| ==> at[k] < at[m])
    && (forall i :: 0 <= i < n ==> (i in at <==> CanonicalMissing(lower, plan, i)))
  }

  lemma {:induction false} ContextKinds(components: seq<Component>, contexts: seq<Context>)
    requires ContextsKnown(components, contexts)
    ensures forall r :: r in ContextRoutes(components, contexts) ==> r.kind == ContextRoute
  {
    if contexts != [] { ContextKinds(components, contexts[..|contexts| - 1]); }
  }

  lemma {:induction false} AliasKinds(c: Component, aliases: seq<Alias>)
    ensures forall r :: r in AliasRoutes(c, aliases) ==> r.kind == AliasRoute
  {
    if aliases != [] { AliasKinds(c, aliases[..|aliases| - 1]); }
  }

  lemma {:induction false} AllAliasKinds(components: seq<Component>)
    ensures forall r :: r in AllAliases(components) ==> r.kind == AliasRoute
  {
    if components != [] {
      AllAliasKinds(components[..|components| - 1]);
      AliasKinds(components[|components| - 1], components[|components| - 1].publication.aliases);
    }
  }

  lemma NoRedirectYet(lower: string -> string, plan: BuildPlan, n: nat, key: RouteKey, h: KnownRoute)
    requires ContextsKnown(plan.components, plan.contexts) && n <= |plan.components|
    requires Holds(lower, AllPublished(plan.components), Before(plan, n), key, h)
    ensures h.kind != RedirectRoute
  {
    HolderAmong(lower, AllPublished(plan.components), Before(plan, n), key, h);
    AllPublishedAre(plan.components);
    ContextKinds(plan.components, plan.contexts);
    AllAliasKinds(plan.components[..n]);
  }

  lemma HolderInTable(lower: string -> string, plan: BuildPlan, n: nat, key: RouteKey)
    requires ContextsKnown(plan.components, plan.contexts) && n <= |plan.components|
    ensures Held(lower, AllPublished(plan.components), Before(plan, n), IndexUpTo(lower, plan, n).routes, key)
  {
    IndexCollisions(lower, plan, n);
    RegisteredHolders(lower, AllPublished(plan.components), Before(plan, n), key);
  }

  lemma OwnHolder(lower: string -> string, plan: BuildPlan, n: nat, key: RouteKey, slug: string)
    requires ContextsKnown(plan.components, plan.contexts) && n <= |plan.components|
    ensures var routes, list := IndexUpTo(lower, plan, n).routes, Before(plan, n);
      key in routes && routes[key].slug == slug && routes[key].kind != RedirectRoute
      <==> exists h :: Holds(lower, AllPublished(plan.components), list, key, h) && h.slug == slug
  {
    var published, list, routes := AllPublished(plan.components), Before(plan, n), IndexUpTo(lower, plan, n).routes;
    HolderInTable(lower, plan, n, key);
    if key in routes { NoRedirectYet(lower, plan, n, key, routes[key]); }
    forall h | Holds(lower, published, list, key, h) ensures key in routes && h == routes[key] {
      HolderListed(lower, published, list, key, h);
      OneHolder(lower, published, list, key, h, routes[key]);
    }
  }

  lemma CanonicalCheck(lower: string -> string, plan: BuildPlan, i: nat)
    requires ContextsKnown(plan.components, plan.contexts) && i < |plan.components|
    ensures var c := plan.components[i];
      CanonicalMissing(lower, plan, i) <==> c.publication.canonicalPath.Some? && CanonicalRoute(lower, IndexUpTo(lower, plan, i + 1).routes, c).None?
  {
    var c := plan.components[i];
    if c.publication.canonicalPath.Some? {
      OwnHolder(lower, plan, i + 1, Key(lower, c.publication.origin, c.publication.canonicalPath.value), c.slug);
    }
  }

  lemma CanonicalStep(lower: string -> string, plan: BuildPlan, n: nat)
    requires ContextsKnown(plan.components, plan.contexts) && n < |plan.components|
    ensures CanonicalsIn(IndexUpTo(lower, plan, n + 1).diagnostics) == CanonicalsIn(IndexUpTo(lower, plan, n).diagnostics)
      + if CanonicalMissing(lower, plan, n) then [CanonicalInvalid(plan.components[n].slug)] else []
  {
    var registered := RegisterAll(lower, IndexUpTo(lower, plan, n), AliasesAt(plan, n));
    RegistrationKeepsCanonicals(lower, IndexUpTo(lower, plan, n), AliasesAt(plan, n));
    CanonicalsAppend(registered.diagnostics, CanonicalInvalid(plan.components[n].slug));
    assert IndexUpTo(lower, plan, n + 1).routes == registered.routes;
    CanonicalCheck(lower, plan, n);
  }

  lemma OneMoreCanonical(lower: string -> string, plan: BuildPlan, n: nat, reports: seq<RouteDiagnostic>, at: seq<nat>)
    requires ContextsKnown(plan.components, plan.contexts) && n < |plan.components|
    requires ReportsCanonicals(lower, plan, n, reports, at)
    ensures if CanonicalMissing(lower, plan, n)
      then ReportsCanonicals(lower, plan, n + 1, reports + [CanonicalInvalid(plan.components[n].slug)], at + [n])
      else ReportsCanonicals(lower, plan, n + 1, reports, at)
  {
  }

  lemma CanonicalsNext(lower: string -> string, plan: BuildPlan, n: nat, at: seq<nat>) returns (next: seq<nat>)
    requires ContextsKnown(plan.components, plan.contexts) && n < |plan.components|
    requires ReportsCanonicals(lower, plan, n, CanonicalsIn(IndexUpTo(lower, plan, n).diagnostics), at)
    ensures ReportsCanonicals(lower, plan, n + 1, CanonicalsIn(IndexUpTo(lower, plan, n + 1).diagnostics), next)
  {
    CanonicalStep(lower, plan, n);
    OneMoreCanonical(lower, plan, n, CanonicalsIn(IndexUpTo(lower, plan, n).diagnostics), at);
    next := if CanonicalMissing(lower, plan, n) then at + [n] else at;
  }

  lemma NoCanonicalsYet(lower: string -> string, plan: BuildPlan)
    requires ContextsKnown(plan.components, plan.contexts)
    ensures CanonicalsIn(IndexUpTo(lower, plan, 0).diagnostics) == []
  {
    RegistrationKeepsCanonicals(lower, Start(lower, AllPublished(plan.components)), ContextRoutes(plan.components, plan.contexts));
  }

  lemma {:induction false} CanonicalsUpTo(lower: string -> string, plan: BuildPlan, n: nat) returns (at: seq<nat>)
    requires ContextsKnown(plan.components, plan.contexts) && n <= |plan.components|
    ensures ReportsCanonicals(lower, plan, n, CanonicalsIn(IndexUpTo(lower, plan, n).diagnostics), at)
  {
    if n == 0 {
      NoCanonicalsYet(lower, plan);
      at := [];
    } else {
      at := CanonicalsUpTo(lower, plan, n - 1);
      at := CanonicalsNext(lower, plan, n - 1, at);
    }
  }

  lemma {:induction false} OnlyTwoKinds(diagnostics: seq<RouteDiagnostic>)
    requires forall d :: d in diagnostics ==> d.RouteCollision? || d.CanonicalInvalid?
    ensures diagnostics == [] <==> CollisionsIn(diagnostics) == [] && CanonicalsIn(diagnostics) == []
  {
    if diagnostics != [] { assert diagnostics[|diagnostics| - 1] in diagnostics; }
  }

  /** An evaluation reports the canonical path of each component that does not lead to
      one of its own routes. */
  lemma CanonicalsAreExact(lower: string -> string, plan: BuildPlan) returns (at: seq<nat>)
    requires ContextsKnown(plan.components, plan.contexts)
    ensures ReportsCanonicals(lower, plan, |plan.components|, CanonicalsIn(EvaluatedIndex(lower, plan).diagnostics), at)
  {
    at := CanonicalsUpTo(lower, plan, |plan.components|);
    RegistrationKeepsCanonicals(lower, IndexUpTo(lower, plan, |plan.components|), AllSources(plan.components));
  }

  lemma NoCanonicalIsExact(lower: string -> string, plan: BuildPlan)
    requires ContextsKnown(plan.components, plan.contexts)
    ensures CanonicalsIn(EvaluatedIndex(lower, plan).diagnostics) == [] <==>
      forall i :: 0 <= i < |plan.components| ==> !CanonicalMissing(lower, plan, i)
  {
    var at := CanonicalsAreExact(lower, plan);
    if at != [] { assert at[0] in at; }
  }

  lemma {:induction false} RegistrationReportsCollisions(lower: string -> string, index: Index, list: seq<KnownRoute>)
    requires forall d :: d in index.diagnostics ==> d.RouteCollision? || d.CanonicalInvalid?
    ensures forall d :: d in RegisterAll(lower, index, list).diagnostics ==> d.RouteCollision? || d.CanonicalInvalid?
  {
    if list != [] { RegistrationReportsCollisions(lower, index, list[..|list| - 1]); }
  }

  lemma {:induction false} IndexReports(lower: string -> string, plan: BuildPlan, n: nat)
    requires ContextsKnown(plan.components, plan.contexts) && n <= |plan.components|
    ensures forall d :: d in IndexUpTo(lower, plan, n).diagnostics ==> d.RouteCollision? || d.CanonicalInvalid?
  {
    if n == 0 {
      RegistrationReportsCollisions(lower, Start(lower, AllPublished(plan.components)), ContextRoutes(plan.components, plan.contexts));
    } else {
      IndexReports(lower, plan, n - 1);
      RegistrationReportsCollisions(lower, IndexUpTo(lower, plan, n - 1), AliasesAt(plan, n - 1));
    }
  }

  lemma ReportsAreOfTwoKinds(lower: string -> string, plan: BuildPlan)
    requires ContextsKnown(plan.components, plan.contexts)
    ensures var reports := EvaluatedIndex(lower, plan).diagnostics; reports == [] <==> CollisionsIn(reports) == [] && CanonicalsIn(reports) == []
  {
    IndexReports(lower, plan, |plan.components|);
    RegistrationReportsCollisions(lower, IndexUpTo(lower, plan, |plan.components|), AllSources(plan.components));
    OnlyTwoKinds(EvaluatedIndex(lower, plan).diagnostics);
  }

  /** Exactly when registration reports nothing. */
  lemma CleanIndexIsExact(lower: string -> string, plan: BuildPlan)
    requires ContextsKnown(plan.components, plan.contexts) && PublishedApart(lower, plan.components)
    ensures EvaluatedIndex(lower, plan).diagnostics == [] <==>
      (SharesAllowed(lower, AllPublished(plan.components), Registered(plan))
       && forall i :: 0 <= i < |plan.components| ==> !CanonicalMissing(lower, plan, i))
  {
    PlanWithoutCollisions(lower, plan);
    NoCanonicalIsExact(lower, plan);
    ReportsAreOfTwoKinds(lower, plan);
  }
}
