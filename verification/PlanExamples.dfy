/** Plans whose components publish beneath their own slug, with the default segments
    (planning/effective_config.py): validation accepts their units. */
module PlanExamples {
  import opened Options
  import opened Ownership
  import opened Paths
  import opened Plan

  predicate IsName(slug: string) { slug != "" && slug != "." && NoSlash(slug) }

  function Home(slug: string): string { "/" + slug + "/" }

  function DevelopmentPath(slug: string): string { Home(slug) + "development/" }

  function AssetsPath(slug: string): string { Home(slug) + "assets/" }

  /** The paths a component gets when only its mount path is authored. */
  function OwnPublication(slug: string, canonicalPath: Option<string>, redirects: seq<Redirect>): Publication {
    Publication("main", Home(slug), DevelopmentPath(slug), DevelopmentPath(slug), AssetsPath(slug), canonicalPath, [], redirects)
  }

  predicate PublishesAtHome(c: Component) {
    IsName(c.slug) && c.publication == OwnPublication(c.slug, c.publication.canonicalPath, c.publication.redirects)
  }

  /** Only components, each at its own home. */
  predicate HomePlan(plan: BuildPlan) {
    && plan.sitePagesRoot.None? && plan.siteAssetsRoot.None? && plan.vendorSources == [] && DistinctSlugs(plan.components)
    && forall i :: 0 <= i < |plan.components| ==> PublishesAtHome(plan.components[i])
  }

  predicate Beneath(root: Path, slug: string) { |root| >= 2 && root[1] == slug }

  lemma StageRootBeneath(kind: string, slug: string, rest: string)
    requires IsName(slug)
    ensures Beneath(StageRoot(kind, Home(slug) + rest), slug)
  {
    var tail := slug + "/" + rest;
    assert Home(slug) + rest == "" + "/" + tail;
    SplitConcat("", tail);
    SplitConcat(slug, rest);
    SplitName(slug);
    var parts := Split(Home(slug) + rest);
    assert parts == [""] + ([slug] + Split(rest));
    assert parts[1..] == [slug] + Split(rest) && parts[1..][1..] == Split(rest);
    assert DropDots(parts) == DropDots(parts[1..]) == [slug] + DropDots(Split(rest));
  }

  lemma ContextBeneath(kind: string, c: Component, context: Context)
    requires PublishesAtHome(c)
    ensures Beneath(StageRoot(kind, PublicPath(c.publication, context)), c.slug)
  {
    var path, home := PublicPath(c.publication, context), Home(c.slug);
    assert home <= DevelopmentPath(c.slug);
    assert home <= path;
    assert path == home + path[|home|..];
    StageRootBeneath(kind, c.slug, path[|home|..]);
  }

  ghost predicate AllBeneath(roots: seq<Path>, slug: string) { forall r :: r in roots ==> Beneath(r, slug) }

  lemma {:induction false} FoundAtHome(components: seq<Component>, slug: string)
    requires forall i :: 0 <= i < |components| ==> PublishesAtHome(components[i])
    ensures var found := FindComponent(components, slug);
      found.Some? ==> PublishesAtHome(found.value) && found.value.slug == slug
  {
    if components != [] { FoundAtHome(components[..|components| - 1], slug); }
  }

  ghost predicate InputBeneath(input: ContextInput, slug: string) {
    Beneath(input.contentRoot, slug) && Beneath(input.staticRoot, slug)
  }

  ghost predicate InputsAllBeneath(inputs: seq<ContextInput>, slug: string) {
    forall x :: x in inputs ==> InputBeneath(x, slug)
  }

  lemma {:induction false} InputsBeneath(components: seq<Component>, contexts: seq<Context>, slug: string)
    requires forall i :: 0 <= i < |components| ==> PublishesAtHome(components[i])
    ensures InputsAllBeneath(InputsOf(components, contexts, slug), slug)
  {
    if contexts != [] {
      var last := contexts[|contexts| - 1];
      InputsBeneath(components, contexts[..|contexts| - 1], slug);
      var owner := FindComponent(components, last.slug);
      FoundAtHome(components, last.slug);
      if last.slug == slug && owner.Some? {
        ContextBeneath("content", owner.value, last);
        ContextBeneath("static", owner.value, last);
        assert InputBeneath(InputOf(owner.value.publication, last), slug);
      }
    }
  }

  lemma {:induction false} RootsBeneath(inputs: seq<ContextInput>, slug: string)
    requires InputsAllBeneath(inputs, slug)
    ensures AllBeneath(ContentRoots(inputs), slug) && AllBeneath(StaticRoots(inputs), slug)
  {
    if inputs != [] {
      assert InputBeneath(inputs[0], slug);
      assert forall x :: x in inputs[1..] ==> x in inputs;
      RootsBeneath(inputs[1..], slug);
    }
  }

  lemma UnitBeneath(plan: BuildPlan, i: nat)
    requires HomePlan(plan) && i < |plan.components|
    ensures AllBeneath(UnitAt(plan, i).Roots(), plan.components[i].slug)
    ensures UnitAt(plan, i).owner == ComponentId(plan.components[i].slug)
  {
    var c := plan.components[i];
    var inputs := InputsOf(plan.components, plan.contexts, c.slug);
    InputsBeneath(plan.components, plan.contexts, c.slug);
    RootsBeneath(inputs, c.slug);
    assert Home(c.slug) + "" == Home(c.slug);
    StageRootBeneath("content", c.slug, "");
    StageRootBeneath("static", c.slug, "assets/");
    DedupKeepsRoots([StageRoot("content", c.publication.componentPath)] + ContentRoots(inputs));
    DedupKeepsRoots([StageRoot("static", c.publication.assetsPath)] + StaticRoots(inputs));
  }

  lemma PlannedUnitAt(plan: BuildPlan, u: Unit) returns (i: nat)
    requires HomePlan(plan) && u in PlannedUnits(plan)
    ensures i < |plan.components| && u == UnitAt(plan, i)
  {
    var all := ComponentUnits(plan, |plan.components|);
    var k :| 0 <= k < |all| && all[k] == u;
    ComponentUnitsFromComponents(plan, |plan.components|, k);
    i :| 0 <= i < |plan.components| && u == UnitAt(plan, i);
  }

  /** Units of components at their own homes never nest. */
  lemma HomeUnitsApart(plan: BuildPlan)
    requires HomePlan(plan)
    ensures RootsApart(PlannedUnits(plan)) && PlainRoots(PlannedUnits(plan))
  {
    forall u, v, p, q | u in PlannedUnits(plan) && v in PlannedUnits(plan) && p in u.Roots() && q in v.Roots() && Comparable(p, q)
      ensures u.owner == v.owner
    {
      var i := PlannedUnitAt(plan, u);
      var j := PlannedUnitAt(plan, v);
      UnitBeneath(plan, i);
      UnitBeneath(plan, j);
      assert p[1] == q[1];
    }
    forall u, p | u in PlannedUnits(plan) && p in u.Roots() ensures Plain(p) {
      PlannedRootsAreStaged(plan, u);
      assert p in u.contentRoots || p in u.staticRoots;
    }
  }

  /** Validation accepts such a plan under every folding that leaves its roots alone. */
  lemma HomePlanIsValid(plan: BuildPlan, fold: char -> string)
    requires HomePlan(plan) && AlreadyFolded(PlannedUnits(plan), fold)
    ensures AllAllowed(Claims(PlannedUnits(plan), fold)) && Disjoint(PlannedUnits(plan), fold)
  {
    HomeUnitsApart(plan);
    FoldedRootsAllowed(PlannedUnits(plan), fold);
  }

  /** A folding that leaves every text as it is. */
  function Letter(c: char): string { [c] }

  lemma {:induction false} LettersStay(s: string)
    ensures Fold(Letter, s) == s
  {
    if s != "" { LettersStay(s[1..]); }
  }

  lemma {:induction false} PathsStay(p: Path)
    ensures FoldPath(Letter, p) == p
  {
    if p != [] {
      LettersStay(p[0]);
      PathsStay(p[1..]);
    }
  }

  lemma LettersAreFolded(units: seq<Unit>)
    ensures AlreadyFolded(units, Letter)
  {
    forall p: Path ensures FoldPath(Letter, p) == p { PathsStay(p); }
  }
}
