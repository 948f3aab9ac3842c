/** Where the version contexts of a component are published (evaluation/publication.py),
    and that the default places never collide. */
module ContextPaths {
  import opened Options
  import opened Paths
  import opened Plan
  import opened PlanExamples
  import opened RedirectLoops
  import opened Routes
  import opened RouteCollisions

  // One component

  /** What tells two contexts of a kind apart. */
  function NameOf(c: Context): Option<string> {
    match c.kind
    case Development => Some("")
    case NamedRef => c.namedRef
    case LineHead => c.releaseLine
    case Candidate => c.version
    case Released => c.version
  }

  predicate WellNamed(c: Context) { NameOf(c).Some? && NoSlash(NameOf(c).value) }

  /** The path of a context below the place of its kind, part by part. */
  function Parts(c: Context): seq<string>
    requires WellNamed(c)
  {
    var name := NameOf(c).value;
    match c.kind
    case Development => [""]
    case NamedRef => ["refs", name, ""]
    case LineHead => [name, ""]
    case Candidate => ["candidates", name, ""]
    case Released => ["releases", name, ""]
  }

  lemma PartsAreSlashFree(c: Context)
    requires WellNamed(c)
    ensures AllSlashFree(Parts(c)) && Split(Join(Parts(c))) == Parts(c)
  {
    assert NoSlash("refs") && NoSlash("candidates") && NoSlash("releases") && NoSlash("");
    SplitJoin(Parts(c));
  }

  lemma JoinTwo(a: string)
    ensures Join([a, ""]) == a + "/"
  {
    assert [a, ""][1..] == [""];
    assert a + "/" + "" == a + "/";
  }

  lemma JoinThree(a: string, b: string)
    ensures Join([a, b, ""]) == a + "/" + b + "/"
  {
    assert [a, b, ""][1..] == [b, ""];
    JoinTwo(b);
    assert a + "/" + (b + "/") == a + "/" + b + "/";
  }

  /** The contexts of a component whose docs have their own path lie beneath that path,
      apart from its development context. */
  lemma DocsPaths(publication: Publication, c: Context)
    requires publication.docsPath != publication.developmentPath && WellNamed(c)
    ensures PublicPath(publication, c) == (if c.kind.Development? then publication.developmentPath else publication.docsPath) + Join(Parts(c))
  {
    var name := NameOf(c).value;
    JoinTwo(name);
    JoinThree("refs", name);
    JoinThree("candidates", name);
    JoinThree("releases", name);
    if c.kind.NamedRef? { assert publication.docsPath + "refs/" + name + "/" == publication.docsPath + ("refs" + "/" + name + "/"); }
    if c.kind.LineHead? { assert publication.docsPath + name + "/" == publication.docsPath + (name + "/"); }
    if c.kind.Candidate? { assert publication.docsPath + "candidates/" + name + "/" == publication.docsPath + ("candidates" + "/" + name + "/"); }
    if c.kind.Released? { assert publication.docsPath + "releases/" + name + "/" == publication.docsPath + ("releases" + "/" + name + "/"); }
  }

  lemma SameParts(base: string, a: Context, b: Context)
    requires WellNamed(a) && WellNamed(b) && base + Join(Parts(a)) == base + Join(Parts(b))
    ensures Parts(a) == Parts(b)
  {
    assert (base + Join(Parts(a)))[|base|..] == Join(Parts(a)) && (base + Join(Parts(b)))[|base|..] == Join(Parts(b));
    PartsAreSlashFree(a);
    PartsAreSlashFree(b);
  }

  /** Two contexts with one name, of the same kind. */
  predicate SameContext(a: Context, b: Context) { a.kind == b.kind && NameOf(a) == NameOf(b) }

  /** With docs apart from the development path, two contexts of a component have the same
      path only if they have the same kind and name. */
  lemma DocsPathsDiffer(publication: Publication, a: Context, b: Context)
    requires publication.docsPath != publication.developmentPath && !(publication.docsPath <= publication.developmentPath)
    requires WellNamed(a) && WellNamed(b)
    ensures PublicPath(publication, a) == PublicPath(publication, b) <==> SameContext(a, b)
  {
    DocsPaths(publication, a);
    DocsPaths(publication, b);
    var path, docs := PublicPath(publication, a), publication.docsPath;
    if path == PublicPath(publication, b) {
      if a.kind.Development? || b.kind.Development? {
        assert path == publication.developmentPath + "";
        assert a.kind.Development? || docs <= path;
        assert b.kind.Development? || docs <= path;
      } else {
        SameParts(docs, a, b);
      }
    }
  }

  // Components at their own homes

  /** The path of a context below the home of its component, part by part: without docs
      of their own, releases lie beside the development docs and all else beneath them. */
  function HomeParts(c: Context): seq<string>
    requires WellNamed(c)
  {
    if c.kind.Released? then Parts(c) else ["development"] + Parts(c)
  }

  lemma HomePaths(slug: string, canonicalPath: Option<string>, redirects: seq<Redirect>, c: Context)
    requires WellNamed(c)
    ensures PublicPath(OwnPublication(slug, canonicalPath, redirects), c) == Home(slug) + Join(HomeParts(c))
  {
    var name := NameOf(c).value;
    JoinTwo(name);
    JoinThree("refs", name);
    JoinThree("candidates", name);
    JoinThree("releases", name);
    if c.kind.Released? {
      assert Home(slug) + "releases/" + name + "/" == Home(slug) + ("releases" + "/" + name + "/");
    } else {
      DevelopmentBeneath(slug, c);
      DevelopmentText(slug, c, name);
    }
  }

  lemma DevelopmentBeneath(slug: string, c: Context)
    requires WellNamed(c)
    ensures Home(slug) + Join(["development"] + Parts(c)) == DevelopmentPath(slug) + Join(Parts(c))
  {
    var parts := ["development"] + Parts(c);
    assert parts[1..] == Parts(c) && Join(parts) == "development" + "/" + Join(Parts(c));
    assert "development" + "/" == "development/";
    assert Home(slug) + ("development/" + Join(Parts(c))) == Home(slug) + "development/" + Join(Parts(c));
  }

  lemma DevelopmentText(slug: string, c: Context, name: string)
    requires WellNamed(c) && name == NameOf(c).value && !c.kind.Released?
    ensures PublicPath(OwnPublication(slug, None, []), c) == DevelopmentPath(slug) + Join(Parts(c))
  {
    var d := DevelopmentPath(slug);
    JoinTwo(name);
    JoinThree("refs", name);
    JoinThree("candidates", name);
    if c.kind.Development? { assert d + "" == d; }
    if c.kind.NamedRef? { assert d + "refs/" + name + "/" == d + ("refs" + "/" + name + "/"); }
    if c.kind.LineHead? { assert d + name + "/" == d + (name + "/"); }
    if c.kind.Candidate? { assert d + "candidates/" + name + "/" == d + ("candidates" + "/" + name + "/"); }
  }

  lemma PartsTell(a: Context, b: Context)
    requires WellNamed(a) && WellNamed(b) && HomeParts(a) == HomeParts(b)
    ensures SameContext(a, b)
  {
    assert "development"[0] == 'd' && "releases"[0] == 'r' && "refs"[0] == 'r' && "candidates"[0] == 'c';
    assert HomeParts(a)[0] == HomeParts(b)[0];
    assert a.kind.Released? <==> b.kind.Released?;
    if !a.kind.Released? { assert Parts(a) == HomeParts(a)[1..] == HomeParts(b)[1..] == Parts(b); }
  }

  lemma HomeTexts(home: string, a: Context, b: Context)
    requires WellNamed(a) && WellNamed(b) && home + Join(HomeParts(a)) == home + Join(HomeParts(b))
    ensures SameContext(a, b)
  {
    assert (home + Join(HomeParts(a)))[|home|..] == Join(HomeParts(a)) && (home + Join(HomeParts(b)))[|home|..] == Join(HomeParts(b));
    HomePartsRead(a);
    HomePartsRead(b);
    PartsTell(a, b);
  }

  /** At its own home, too, a component publishes two contexts at one path only if they
      have the same kind and name. */
  lemma HomePathsApart(slug: string, canonicalPath: Option<string>, redirects: seq<Redirect>, a: Context, b: Context)
    requires WellNamed(a) && WellNamed(b)
    ensures var publication := OwnPublication(slug, canonicalPath, redirects);
      PublicPath(publication, a) == PublicPath(publication, b) <==> SameContext(a, b)
  {
    HomePaths(slug, canonicalPath, redirects, a);
    HomePaths(slug, canonicalPath, redirects, b);
    if PublicPath(OwnPublication(slug, canonicalPath, redirects), a) == PublicPath(OwnPublication(slug, canonicalPath, redirects), b) {
      HomeTexts(Home(slug), a, b);
    }
  }

  lemma HomePartsRead(c: Context)
    requires WellNamed(c)
    ensures Split(Join(HomeParts(c))) == HomeParts(c)
  {
    PartsAreSlashFree(c);
    assert NoSlash("development");
    SplitJoin(HomeParts(c));
  }

  // Plans of such components

  lemma HomeStarts(slug: string, rest: string)
    requires IsName(slug)
    ensures Split(Home(slug) + rest) == ["", slug] + Split(rest)
  {
    assert Home(slug) + rest == "" + "/" + (slug + "/" + rest);
    SplitConcat("", slug + "/" + rest);
    SplitConcat(slug, rest);
    SplitName(slug);
    assert Split("") == [""];
    assert [""] + ([slug] + Split(rest)) == ["", slug] + Split(rest);
  }

  predicate AtHome(r: KnownRoute) { IsName(r.slug) && Home(r.slug) <= r.path }

  lemma OneHome(r: KnownRoute, q: KnownRoute)
    requires AtHome(r) && AtHome(q) && r.path == q.path
    ensures r.slug == q.slug
  {
    HomeStarts(r.slug, r.path[|Home(r.slug)|..]);
    HomeStarts(q.slug, q.path[|Home(q.slug)|..]);
    assert r.path == Home(r.slug) + r.path[|Home(r.slug)|..] == Home(q.slug) + q.path[|Home(q.slug)|..];
    assert Split(r.path)[1] == r.slug && Split(q.path)[1] == q.slug;
  }

  lemma {:induction false} PublishedAtHome(components: seq<Component>, r: KnownRoute)
    requires (forall i :: 0 <= i < |components| ==> PublishesAtHome(components[i])) && r in AllPublished(components)
    ensures AtHome(r) && r.kind == PublishedRoute
  {
    var front, last := components[..|components| - 1], components[|components| - 1];
    if r in AllPublished(front) {
      PublishedAtHome(front, r);
    } else {
      assert r in PublishedOf(last);
      assert Home(last.slug) <= DevelopmentPath(last.slug) && Home(last.slug) <= AssetsPath(last.slug);
    }
  }

  lemma {:induction false} ContextsAtHome(components: seq<Component>, contexts: seq<Context>, r: KnownRoute)
    requires (forall i :: 0 <= i < |components| ==> PublishesAtHome(components[i])) && ContextsKnown(components, contexts)
    requires r in ContextRoutes(components, contexts)
    ensures AtHome(r) && r.kind == ContextRoute
  {
    var front, last := contexts[..|contexts| - 1], contexts[|contexts| - 1];
    if r in ContextRoutes(components, front) {
      ContextsAtHome(components, front, r);
    } else {
      FoundAtHome(components, last.slug);
      assert Home(last.slug) <= DevelopmentPath(last.slug);
    }
  }

  predicate WithoutRedirects(components: seq<Component>) {
    forall i :: 0 <= i < |components| ==> components[i].publication.aliases == [] && components[i].publication.redirects == []
  }

  lemma {:induction false} NothingElseRegistered(components: seq<Component>)
    requires WithoutRedirects(components)
    ensures AllAliases(components) == [] && AllSources(components) == []
  {
    if components != [] { NothingElseRegistered(components[..|components| - 1]); }
  }

  /** Components at their own homes without redirects never collide, whatever contexts
      they have, provided their paths are in lower case: a development context may lie where its
      component publishes. */
  lemma HomePlanHasNoCollision(lower: string -> string, plan: BuildPlan)
    requires HomePlan(plan) && ContextsKnown(plan.components, plan.contexts) && WithoutRedirects(plan.components)
    requires forall r :: r in AllPublished(plan.components) + ContextRoutes(plan.components, plan.contexts) ==> lower(r.path) == r.path
    ensures CollisionsIn(EvaluatedIndex(lower, plan).diagnostics) == []
  {
    var published, list := AllPublished(plan.components), Registered(plan);
    NothingElseRegistered(plan.components);
    assert list == ContextRoutes(plan.components, plan.contexts);
    forall r | r in list ensures AtHome(r) && r.kind == ContextRoute && lower(r.path) == r.path { ContextsAtHome(plan.components, plan.contexts, r); }
    forall r | r in published ensures AtHome(r) && r.kind == PublishedRoute && lower(r.path) == r.path { PublishedAtHome(plan.components, r); }
    HomesMayShare(lower, published, list);
    var at := CollisionsAreExact(lower, plan);
    if at != [] {
      assert at[0] in at;
      AllowedDoesNotCollide(lower, published, list, at[0]);
    }
  }

  /** Without canonical paths their registration reports nothing at all. */
  lemma HomePlanIsClean(lower: string -> string, plan: BuildPlan)
    requires HomePlan(plan) && ContextsKnown(plan.components, plan.contexts) && WithoutRedirects(plan.components)
    requires forall i :: 0 <= i < |plan.components| ==> plan.components[i].publication.canonicalPath.None?
    requires forall r :: r in AllPublished(plan.components) + ContextRoutes(plan.components, plan.contexts) ==> lower(r.path) == r.path
    ensures EvaluatedIndex(lower, plan).diagnostics == []
  {
    HomePlanHasNoCollision(lower, plan);
    NoCanonicalIsExact(lower, plan);
    ReportsAreOfTwoKinds(lower, plan);
  }

  lemma HomesMayShare(lower: string -> string, published: seq<KnownRoute>, list: seq<KnownRoute>)
    requires forall r :: r in published ==> AtHome(r) && r.kind == PublishedRoute && lower(r.path) == r.path
    requires forall r :: r in list ==> AtHome(r) && r.kind == ContextRoute && lower(r.path) == r.path
    ensures SharesAllowed(lower, published, list)
  {
    forall i, k | 0 <= i < |list| && 0 <= k < |published| && KeyOf(lower, published[k]) == KeyOf(lower, list[i])
      ensures MayShare(published[k], list[i])
    {
      OneHome(published[k], list[i]);
    }
    forall i, j | 0 <= j < i < |list| && KeyOf(lower, list[j]) == KeyOf(lower, list[i]) ensures MayShare(list[j], list[i]) {
      OneHome(list[j], list[i]);
    }
  }
}
