/** Owned staging units and the validation of their output roots (staging/ownership.py). */
module Ownership {
  import opened Options
  import opened Paths
  import opened Plan
  import opened Sorting

  datatype Unit = Unit(id: string, owner: string, contentRoots: seq<Path>, staticRoots: seq<Path>) {
    function Roots(): seq<Path> { contentRoots + staticRoots }
  }

  datatype Claim = Claim(path: string, folded: string, owner: string, unitId: string)

  datatype OwnershipError =
    | MissingPublication(slug: string)
    | Conflict(caseOnly: bool, first: Claim, second: Claim)

  // Validation

  predicate TextsOverlap(a: string, b: string) { b == a || TextBeneath(b, a) || TextBeneath(a, b) }

  /** What one turn of the nested scan lets pass. */
  predicate Allowed(a: Claim, b: Claim) {
    || (!TextsOverlap(a.path, b.path) && !TextsOverlap(a.folded, b.folded))
    || (a.unitId == b.unitId && a.owner == b.owner && a.path == b.path)
    || (a.owner == b.owner && TextsOverlap(a.path, b.path))
  }

  predicate ClaimLe(a: Claim, b: Claim) { StringLe(a.path, b.path) }

  function RootClaims(unit: Unit, roots: seq<Path>, fold: char -> string): seq<Claim> {
    if roots == [] then []
    else
      var path := Join(roots[|roots| - 1]);
      RootClaims(unit, roots[..|roots| - 1], fold) + [Claim(path, Fold(fold, path), unit.owner, unit.id)]
  }

  function Claims(units: seq<Unit>, fold: char -> string): seq<Claim> {
    if units == [] then []
    else
      var last := units[|units| - 1];
      Claims(units[..|units| - 1], fold) + RootClaims(last, last.Roots(), fold)
  }

  lemma RootClaimsNext(unit: Unit, roots: seq<Path>, j: nat, fold: char -> string)
    requires j < |roots|
    ensures RootClaims(unit, roots[..j + 1], fold)
      == RootClaims(unit, roots[..j], fold) + [Claim(Join(roots[j]), Fold(fold, Join(roots[j])), unit.owner, unit.id)]
  {
    assert roots[..j + 1][..j] == roots[..j];
  }

  method CollectClaims(units: seq<Unit>, fold: char -> string) returns (claims: seq<Claim>)
    ensures claims == Claims(units, fold)
  {
    claims := [];
    for i := 0 to |units|
      invariant claims == Claims(units[..i], fold)
    {
      var roots := units[i].Roots();
      for j := 0 to |roots|
        invariant claims == Claims(units[..i], fold) + RootClaims(units[i], roots[..j], fold)
      {
        var path := Join(roots[j]);
        RootClaimsNext(units[i], roots, j, fold);
        claims := claims + [Claim(path, Fold(fold, path), units[i].owner, units[i].id)];
      }
      assert roots[..|roots|] == roots && units[..i + 1][..i] == units[..i];
    }
    assert units[..|units|] == units;
  }

  ghost predicate AllAllowed(claims: seq<Claim>) {
    forall a, b :: a in claims && b in claims ==> Allowed(a, b)
  }

  ghost predicate IsConflict(e: OwnershipError, claims: seq<Claim>) {
    && e.Conflict? && e.first in claims && e.second in claims && !Allowed(e.first, e.second)
    && e.caseOnly == !TextsOverlap(e.first.path, e.second.path)
  }

  /** One turn of the nested scan. */
  method CheckPair(a: Claim, b: Claim) returns (r: Result<(), OwnershipError>)
    ensures r.Ok? <==> Allowed(a, b)
    ensures r.Err? ==> IsConflict(r.error, [a, b]) && r.error.first == a && r.error.second == b
  {
    var overlapping := TextsOverlap(a.path, b.path);
    var collision := TextsOverlap(a.folded, b.folded);
    if !overlapping && !collision { return Ok(()); }
    if a.unitId == b.unitId && a.owner == b.owner && a.path == b.path { return Ok(()); }
    if a.owner == b.owner && overlapping { return Ok(()); }
    r := Err(Conflict(collision && !overlapping, a, b));
  }

  ghost predicate RowAllowed(ordered: seq<Claim>, i: nat, limit: nat)
    requires i < |ordered| && limit <= |ordered|
  {
    forall b :: i < b < limit ==> Allowed(ordered[i], ordered[b])
  }

  method ScanClaims(ordered: seq<Claim>) returns (r: Result<(), OwnershipError>)
    ensures r.Ok? <==> AllAllowed(ordered)
    ensures r.Err? ==> IsConflict(r.error, ordered)
  {
    for i := 0 to |ordered|
      invariant forall a :: 0 <= a < i ==> RowAllowed(ordered, a, |ordered|)
    {
      for j := i + 1 to |ordered|
        invariant RowAllowed(ordered, i, j)
      {
        var pair := CheckPair(ordered[i], ordered[j]);
        if pair.Err? { return pair; }
      }
    }
    PairsCoverClaims(ordered);
    r := Ok(());
  }

  /** Returns normally exactly when no two claims conflict, in whatever order
      they are listed; otherwise reports a pair that does. */
  method ValidateOutputOwnership(units: seq<Unit>, fold: char -> string) returns (r: Result<(), OwnershipError>)
    ensures r.Ok? <==> AllAllowed(Claims(units, fold))
    ensures r.Err? ==> IsConflict(r.error, Claims(units, fold))
  {
    var claims := CollectClaims(units, fold);
    var ordered := StableSort(claims, ClaimLe);
    SortIsPermutation(claims, ClaimLe);
    r := ScanClaims(ordered);
  }

  lemma PairsCoverClaims(ordered: seq<Claim>)
    requires forall a :: 0 <= a < |ordered| ==> RowAllowed(ordered, a, |ordered|)
    ensures AllAllowed(ordered)
  {
    forall x, y | x in ordered && y in ordered ensures Allowed(x, y) {
      var a :| 0 <= a < |ordered| && ordered[a] == x;
      var b :| 0 <= b < |ordered| && ordered[b] == y;
      AllowedIsSymmetric(x, y);
      AllowedIsSymmetric(y, x);
      assert RowAllowed(ordered, a, |ordered|) && RowAllowed(ordered, b, |ordered|);
    }
  }

  lemma AllowedIsSymmetric(a: Claim, b: Claim)
    ensures Allowed(a, b) ==> Allowed(b, a)
    ensures Allowed(a, a)
  {
  }

  // What validation means for paths

  ghost predicate PlainRoots(units: seq<Unit>) {
    forall u, p :: u in units && p in u.Roots() ==> Plain(p)
  }

  /** Roots of different owners never nest, not even up to case, and roots of
      one owner do not collide by case alone. */
  ghost predicate Disjoint(units: seq<Unit>, fold: char -> string) {
    forall u, v, p, q :: u in units && v in units && p in u.Roots() && q in v.Roots() ==>
      RootsCoexist(u, v, p, q, fold)
  }

  predicate RootsCoexist(u: Unit, v: Unit, p: Path, q: Path, fold: char -> string) {
    Comparable(FoldPath(fold, p), FoldPath(fold, q)) ==> u.owner == v.owner && Comparable(p, q)
  }

  lemma AllowedOnPaths(u: Unit, v: Unit, p: Path, q: Path, fold: char -> string)
    requires SafeFold(fold) && Plain(p) && Plain(q)
    ensures Allowed(ClaimOf(u, p, fold), ClaimOf(v, q, fold)) <==> RootsCoexist(u, v, p, q, fold)
  {
    FoldJoin(fold, p);
    FoldJoin(fold, q);
    TextPrefixIsSegmentPrefix(p, q);
    TextPrefixIsSegmentPrefix(q, p);
    TextPrefixIsSegmentPrefix(FoldPath(fold, p), FoldPath(fold, q));
    TextPrefixIsSegmentPrefix(FoldPath(fold, q), FoldPath(fold, p));
    if p <= q { FoldKeepsPrefix(fold, p, q); }
    if q <= p { FoldKeepsPrefix(fold, q, p); }
  }

  function ClaimOf(u: Unit, p: Path, fold: char -> string): Claim {
    Claim(Join(p), Fold(fold, Join(p)), u.owner, u.id)
  }

  lemma {:induction false} RootClaimsListed(u: Unit, roots: seq<Path>, fold: char -> string, c: Claim)
    ensures c in RootClaims(u, roots, fold) <==> exists p :: p in roots && c == ClaimOf(u, p, fold)
  {
    if roots != [] {
      var front, last := roots[..|roots| - 1], roots[|roots| - 1];
      RootClaimsListed(u, front, fold, c);
      assert roots == front + [last];
      if c == ClaimOf(u, last, fold) { assert last in roots; }
      if p :| p in roots && c == ClaimOf(u, p, fold) { assert p in front || p == last; }
    }
  }

  lemma {:induction false} ClaimsListed(units: seq<Unit>, fold: char -> string, c: Claim)
    ensures c in Claims(units, fold) <==> exists u, p :: u in units && p in u.Roots() && c == ClaimOf(u, p, fold)
  {
    if units != [] {
      var front, last := units[..|units| - 1], units[|units| - 1];
      ClaimsListed(front, fold, c);
      RootClaimsListed(last, last.Roots(), fold, c);
      assert units == front + [last];
    }
  }

  /** The text scan accepts exactly the units whose roots are disjoint as paths. */
  lemma ValidationIsExact(units: seq<Unit>, fold: char -> string)
    requires SafeFold(fold) && PlainRoots(units)
    ensures AllAllowed(Claims(units, fold)) <==> Disjoint(units, fold)
  {
    if AllAllowed(Claims(units, fold)) {
      forall u, v, p, q | u in units && v in units && p in u.Roots() && q in v.Roots()
        ensures RootsCoexist(u, v, p, q, fold)
      {
        AllowedOnPaths(u, v, p, q, fold);
        ClaimsListed(units, fold, ClaimOf(u, p, fold));
        ClaimsListed(units, fold, ClaimOf(v, q, fold));
      }
    }
    if Disjoint(units, fold) {
      forall a, b | a in Claims(units, fold) && b in Claims(units, fold) ensures Allowed(a, b) {
        ClaimsListed(units, fold, a);
        ClaimsListed(units, fold, b);
        var u, p :| u in units && p in u.Roots() && a == ClaimOf(u, p, fold);
        var v, q :| v in units && q in v.Roots() && b == ClaimOf(v, q, fold);
        AllowedOnPaths(u, v, p, q, fold);
      }
    }
  }

  /** Up to case, every stage path lies beneath the roots of at most one owner. */
  lemma AtMostOneOwner(units: seq<Unit>, fold: char -> string, u: Unit, v: Unit, p: Path, q: Path, stagePath: Path)
    requires Disjoint(units, fold) && u in units && v in units && p in u.Roots() && q in v.Roots()
    requires FoldPath(fold, p) <= FoldPath(fold, stagePath) && FoldPath(fold, q) <= FoldPath(fold, stagePath)
    ensures u.owner == v.owner
  {
    PrefixesOfOnePathCompare(FoldPath(fold, p), FoldPath(fold, q), FoldPath(fold, stagePath));
    assert RootsCoexist(u, v, p, q, fold);
  }

  /** Roots that case folding leaves as they are. */
  ghost predicate AlreadyFolded(units: seq<Unit>, fold: char -> string) {
    SafeFold(fold) && forall u, p :: u in units && p in u.Roots() ==> FoldPath(fold, p) == p
  }

  /** Roots of different owners do not nest. */
  ghost predicate RootsApart(units: seq<Unit>) {
    forall u, v, p, q :: u in units && v in units && p in u.Roots() && q in v.Roots() && Comparable(p, q) ==> u.owner == v.owner
  }

  /** On folded roots validation asks only that owners do not nest. */
  lemma FoldedRootsAllowed(units: seq<Unit>, fold: char -> string)
    requires AlreadyFolded(units, fold) && PlainRoots(units)
    ensures AllAllowed(Claims(units, fold)) <==> RootsApart(units)
    ensures Disjoint(units, fold) <==> RootsApart(units)
  {
    ValidationIsExact(units, fold);
    if Disjoint(units, fold) {
      forall u, v, p, q | u in units && v in units && p in u.Roots() && q in v.Roots() && Comparable(p, q) ensures u.owner == v.owner {
        assert RootsCoexist(u, v, p, q, fold);
      }
    }
  }

  // Building the units of a plan

  datatype ContextInput = ContextInput(context: Context, contentRoot: Path, staticRoot: Path)

  function DropDots(parts: seq<string>): Path {
    if parts == [] then []
    else if parts[0] == "" || parts[0] == "." then DropDots(parts[1..])
    else [parts[0]] + DropDots(parts[1..])
  }

  /** The stage root of a public path; empty and dot segments vanish. */
  function StageRoot(kind: string, publicPath: string): Path { [kind] + DropDots(Split(publicPath)) }

  function Dedup(roots: seq<Path>): seq<Path> {
    if roots == [] then []
    else
      var front, last := Dedup(roots[..|roots| - 1]), roots[|roots| - 1];
      if last in front then front else front + [last]
  }

  method UniqueStageRoots(roots: seq<Path>) returns (unique: seq<Path>)
    ensures unique == Dedup(roots)
  {
    unique := [];
    for i := 0 to |roots|
      invariant unique == Dedup(roots[..i])
    {
      assert roots[..i + 1][..i] == roots[..i];
      if roots[i] in unique { continue; }
      unique := unique + [roots[i]];
    }
    assert roots[..|roots|] == roots;
  }

  lemma {:induction false} DedupKeepsRoots(roots: seq<Path>)
    ensures forall p :: p in Dedup(roots) <==> p in roots
    ensures forall i, j :: 0 <= i < j < |Dedup(roots)| ==> Dedup(roots)[i] != Dedup(roots)[j]
  {
    if roots != [] {
      var front, last := roots[..|roots| - 1], roots[|roots| - 1];
      DedupKeepsRoots(front);
      assert roots == front + [last];
    }
  }

  function InputOf(publication: Publication, context: Context): ContextInput {
    var publicPath := PublicPath(publication, context);
    ContextInput(context, StageRoot("content", publicPath), StageRoot("static", publicPath))
  }

  /** The inputs of one component, in selection order; None when a context has no publication. */
  function InputsOf(components: seq<Component>, contexts: seq<Context>, slug: string): seq<ContextInput> {
    if contexts == [] then []
    else
      var front, last := InputsOf(components, contexts[..|contexts| - 1], slug), contexts[|contexts| - 1];
      var owner := FindComponent(components, last.slug);
      if last.slug == slug && owner.Some? then front + [InputOf(owner.value.publication, last)] else front
  }

  function ContentRoots(inputs: seq<ContextInput>): seq<Path> {
    if inputs == [] then [] else [inputs[0].contentRoot] + ContentRoots(inputs[1..])
  }

  function StaticRoots(inputs: seq<ContextInput>): seq<Path> {
    if inputs == [] then [] else [inputs[0].staticRoot] + StaticRoots(inputs[1..])
  }

  function ComponentId(slug: string): string { "component:" + slug }

  function ComponentUnit(component: Component, inputs: seq<ContextInput>): Unit {
    Unit(ComponentId(component.slug), ComponentId(component.slug),
         Dedup([StageRoot("content", component.publication.componentPath)] + ContentRoots(inputs)),
         Dedup([StageRoot("static", component.publication.assetsPath)] + StaticRoots(inputs)))
  }

  predicate Staged(component: Component, inputs: seq<ContextInput>) {
    component.pagesRoot.Some? || component.assetsRoot.Some? || inputs != []
  }

  function UnitAt(plan: BuildPlan, i: nat): Unit
    requires i < |plan.components|
  {
    ComponentUnit(plan.components[i], InputsOf(plan.components, plan.contexts, plan.components[i].slug))
  }

  function ComponentUnits(plan: BuildPlan, n: nat): seq<Unit>
    requires n <= |plan.components|
  {
    if n == 0 then []
    else
      var component := plan.components[n - 1];
      var inputs := InputsOf(plan.components, plan.contexts, component.slug);
      ComponentUnits(plan, n - 1) + if Staged(component, inputs) then [UnitAt(plan, n - 1)] else []
  }

  const SITE_PAGES := Unit("site-pages", "site-content", [["content", "site"]], [])
  const SITE_ASSETS := Unit("site-assets", "site-static", [], [["static", "site"]])
  const VENDOR_ASSETS := Unit("vendor-assets", "site-static", [], [["static", "site", "vendor"]])

  function SiteUnits(plan: BuildPlan): seq<Unit> {
    (if plan.sitePagesRoot.Some? then [SITE_PAGES] else [])
    + (if plan.siteAssetsRoot.Some? then [SITE_ASSETS] else [])
    + (if plan.vendorSources != [] then [VENDOR_ASSETS] else [])
  }

  function PlannedUnits(plan: BuildPlan): seq<Unit> {
    SiteUnits(plan) + ComponentUnits(plan, |plan.components|)
  }

  function InputsFor(bySlug: map<string, seq<ContextInput>>, slug: string): seq<ContextInput> {
    if slug in bySlug then bySlug[slug] else []
  }

  lemma GroupStep(plan: BuildPlan, i: nat, bySlug: map<string, seq<ContextInput>>, slug: string)
    requires i < |plan.contexts| && FindComponent(plan.components, plan.contexts[i].slug).Some?
    requires InputsFor(bySlug, slug) == InputsOf(plan.components, plan.contexts[..i], slug)
    ensures var context := plan.contexts[i];
      var input := InputOf(FindComponent(plan.components, context.slug).value.publication, context);
      InputsFor(bySlug[context.slug := InputsFor(bySlug, context.slug) + [input]], slug)
      == InputsOf(plan.components, plan.contexts[..i + 1], slug)
  {
    assert plan.contexts[..i + 1][..i] == plan.contexts[..i];
  }

  method GroupContexts(plan: BuildPlan) returns (r: Result<map<string, seq<ContextInput>>, OwnershipError>)
    ensures r.Ok? <==> ContextsKnown(plan.components, plan.contexts)
    ensures r.Ok? ==> forall slug :: InputsFor(r.value, slug) == InputsOf(plan.components, plan.contexts, slug)
    ensures r.Err? ==> r.error.MissingPublication?
  {
    var bySlug: map<string, seq<ContextInput>> := map[];
    for i := 0 to |plan.contexts|
      invariant ContextsKnown(plan.components, plan.contexts[..i])
      invariant forall slug :: InputsFor(bySlug, slug) == InputsOf(plan.components, plan.contexts[..i], slug)
    {
      var context := plan.contexts[i];
      var owner := FindComponent(plan.components, context.slug);
      if owner.None? { return Err(MissingPublication(context.slug)); }
      ghost var before := bySlug;
      bySlug := bySlug[context.slug := InputsFor(bySlug, context.slug) + [InputOf(owner.value.publication, context)]];
      forall slug ensures InputsFor(bySlug, slug) == InputsOf(plan.components, plan.contexts[..i + 1], slug) {
        GroupStep(plan, i, before, slug);
      }
    }
    assert plan.contexts[..|plan.contexts|] == plan.contexts;
    r := Ok(bySlug);
  }

  method BuildComponentUnits(plan: BuildPlan, bySlug: map<string, seq<ContextInput>>) returns (units: seq<Unit>)
    requires forall slug :: InputsFor(bySlug, slug) == InputsOf(plan.components, plan.contexts, slug)
    ensures units == ComponentUnits(plan, |plan.components|)
  {
    units := [];
    for i := 0 to |plan.components|
      invariant units == ComponentUnits(plan, i)
    {
      var component := plan.components[i];
      var inputs := InputsFor(bySlug, component.slug);
      if component.pagesRoot.None? && component.assetsRoot.None? && inputs == [] { continue; }
      var contentRoots := UniqueStageRoots([StageRoot("content", component.publication.componentPath)] + ContentRoots(inputs));
      var staticRoots := UniqueStageRoots([StageRoot("static", component.publication.assetsPath)] + StaticRoots(inputs));
      units := units + [Unit(ComponentId(component.slug), ComponentId(component.slug), contentRoots, staticRoots)];
    }
  }

  /** The units of a plan, or the first reason it has none. */
  method BuildOwnedUnits(plan: BuildPlan, fold: char -> string) returns (r: Result<seq<Unit>, OwnershipError>)
    ensures r.Ok? <==> ContextsKnown(plan.components, plan.contexts) && AllAllowed(Claims(PlannedUnits(plan), fold))
    ensures r.Ok? ==> r.value == PlannedUnits(plan)
  {
    var units: seq<Unit> := [];
    if plan.sitePagesRoot.Some? { units := units + [SITE_PAGES]; }
    if plan.siteAssetsRoot.Some? { units := units + [SITE_ASSETS]; }
    if plan.vendorSources != [] { units := units + [VENDOR_ASSETS]; }
    var grouped := GroupContexts(plan);
    if grouped.Err? { return Err(grouped.error); }
    var componentUnits := BuildComponentUnits(plan, grouped.value);
    assert units == SiteUnits(plan);
    units := units + componentUnits;
    var valid := ValidateOutputOwnership(units, fold);
    if valid.Err? { return Err(valid.error); }
    r := Ok(units);
  }

  // What the units of a plan satisfy

  predicate DistinctIds(units: seq<Unit>) {
    forall i, j :: 0 <= i < j < |units| ==> units[i].id != units[j].id
  }

  lemma {:induction false} ComponentUnitsFromComponents(plan: BuildPlan, n: nat, k: nat)
    requires n <= |plan.components| && k < |ComponentUnits(plan, n)|
    ensures exists i :: 0 <= i < n && ComponentUnits(plan, n)[k] == UnitAt(plan, i)
  {
    if k < |ComponentUnits(plan, n - 1)| { ComponentUnitsFromComponents(plan, n - 1, k); }
  }

  lemma {:induction false} ComponentIdsDistinct(plan: BuildPlan, n: nat)
    requires n <= |plan.components| && DistinctSlugs(plan.components)
    ensures DistinctIds(ComponentUnits(plan, n))
  {
    if n > 0 {
      ComponentIdsDistinct(plan, n - 1);
      var front := ComponentUnits(plan, n - 1);
      forall k | 0 <= k < |front| ensures front[k].id != ComponentId(plan.components[n - 1].slug) {
        ComponentUnitsFromComponents(plan, n - 1, k);
        var i :| 0 <= i < n - 1 && front[k] == UnitAt(plan, i);
        assert ComponentId(plan.components[i].slug)[10..] == plan.components[i].slug;
        assert ComponentId(plan.components[n - 1].slug)[10..] == plan.components[n - 1].slug;
      }
    }
  }

  /** Distinct component slugs give distinct unit identifiers. */
  lemma UnitIdsDistinct(plan: BuildPlan)
    requires DistinctSlugs(plan.components)
    ensures DistinctIds(PlannedUnits(plan))
  {
    ComponentIdsDistinct(plan, |plan.components|);
    var site, rest := SiteUnits(plan), ComponentUnits(plan, |plan.components|);
    assert forall i :: 0 <= i < |site| ==> site[i].id != "" && site[i].id[0] != 'c';
    forall k | 0 <= k < |rest| ensures rest[k].id != "" && rest[k].id[0] == 'c' {
      ComponentUnitsFromComponents(plan, |plan.components|, k);
      var i :| 0 <= i < |plan.components| && rest[k] == UnitAt(plan, i);
      assert ComponentId(plan.components[i].slug)[0] == 'c';
    }
    assert SITE_PAGES.id[5] == 'p' && SITE_ASSETS.id[5] == 'a' && VENDOR_ASSETS.id[0] == 'v';
  }

  lemma {:induction false} DropDotsPlain(parts: seq<string>)
    requires AllSlashFree(parts)
    ensures AllSegments(DropDots(parts))
  {
    if parts != [] { DropDotsPlain(parts[1..]); }
  }

  lemma StageRootPlain(kind: string, publicPath: string)
    requires kind == "content" || kind == "static"
    ensures Plain(StageRoot(kind, publicPath))
  {
    SplitHasNoSlashes(publicPath);
    DropDotsPlain(Split(publicPath));
  }

  lemma {:induction false} DropDotsConcat(a: seq<string>, b: seq<string>)
    ensures DropDots(a + b) == DropDots(a) + DropDots(b)
  {
    if a == [] {
      assert a + b == b;
    } else {
      assert (a + b)[1..] == a[1..] + b;
      DropDotsConcat(a[1..], b);
    }
  }

  /** One more segment of a public path is one more segment of its stage root, unless it
      is empty or a dot. */
  lemma StageRootStep(kind: string, path: string, name: string)
    requires NoSlash(name)
    ensures StageRoot(kind, path + "/" + name) == StageRoot(kind, path) + if name == "" || name == "." then [] else [name]
    ensures StageRoot(kind, name) == [kind] + if name == "" || name == "." then [] else [name]
  {
    SplitConcat(path, name);
    SplitName(name);
    DropDotsConcat(Split(path), [name]);
    assert [name][1..] == [];
  }

  /** Content roots lie under content/, static roots under static/, and their segments are plain. */
  predicate StagedRoots(u: Unit) {
    && (forall p :: p in u.contentRoots ==> RootOf("content", p))
    && (forall p :: p in u.staticRoots ==> RootOf("static", p))
  }

  predicate RootOf(kind: string, p: Path) { Plain(p) && p[0] == kind }

  predicate InputsStaged(inputs: seq<ContextInput>) {
    forall x :: x in inputs ==> RootOf("content", x.contentRoot) && RootOf("static", x.staticRoot)
  }

  lemma {:induction false} InputRootsStaged(components: seq<Component>, contexts: seq<Context>, slug: string)
    ensures InputsStaged(InputsOf(components, contexts, slug))
  {
    if contexts != [] {
      var front, last := contexts[..|contexts| - 1], contexts[|contexts| - 1];
      InputRootsStaged(components, front, slug);
      var owner := FindComponent(components, last.slug);
      if owner.Some? {
        StageRootPlain("content", PublicPath(owner.value.publication, last));
        StageRootPlain("static", PublicPath(owner.value.publication, last));
      }
    }
  }

  lemma {:induction false} RootsOfInputs(inputs: seq<ContextInput>)
    ensures forall p :: p in ContentRoots(inputs) <==> exists x :: x in inputs && p == x.contentRoot
    ensures forall p :: p in StaticRoots(inputs) <==> exists x :: x in inputs && p == x.staticRoot
  {
    if inputs != [] { RootsOfInputs(inputs[1..]); }
  }

  lemma UnitAtStaged(plan: BuildPlan, i: nat)
    requires i < |plan.components|
    ensures StagedRoots(UnitAt(plan, i))
  {
    InputRootsStaged(plan.components, plan.contexts, plan.components[i].slug);
    ComponentUnitStaged(plan.components[i], InputsOf(plan.components, plan.contexts, plan.components[i].slug));
  }

  lemma SiteRootsStaged()
    ensures StagedRoots(SITE_PAGES) && StagedRoots(SITE_ASSETS) && StagedRoots(VENDOR_ASSETS)
  {
  }

  lemma PlannedRootsAreStaged(plan: BuildPlan, u: Unit)
    requires u in PlannedUnits(plan)
    ensures StagedRoots(u)
  {
    var all := ComponentUnits(plan, |plan.components|);
    if u in all {
      var k :| 0 <= k < |all| && all[k] == u;
      ComponentUnitsFromComponents(plan, |plan.components|, k);
      var i :| 0 <= i < |plan.components| && u == UnitAt(plan, i);
      UnitAtStaged(plan, i);
    } else {
      assert u == SITE_PAGES || u == SITE_ASSETS || u == VENDOR_ASSETS;
      SiteRootsStaged();
    }
  }

  lemma ComponentUnitStaged(component: Component, inputs: seq<ContextInput>)
    requires InputsStaged(inputs)
    ensures StagedRoots(ComponentUnit(component, inputs))
  {
    RootsOfInputs(inputs);
    StageRootPlain("content", component.publication.componentPath);
    StageRootPlain("static", component.publication.assetsPath);
    DedupKeepsRoots([StageRoot("content", component.publication.componentPath)] + ContentRoots(inputs));
    DedupKeepsRoots([StageRoot("static", component.publication.assetsPath)] + StaticRoots(inputs));
  }

  lemma {:induction false} ContextIsAnInput(components: seq<Component>, contexts: seq<Context>, at: nat)
    requires at < |contexts| && FindComponent(components, contexts[at].slug).Some?
    ensures var c := contexts[at];
      InputOf(FindComponent(components, c.slug).value.publication, c) in InputsOf(components, contexts, c.slug)
  {
    if at < |contexts| - 1 { ContextIsAnInput(components, contexts[..|contexts| - 1], at); }
  }

  lemma {:induction false} StagedComponentHasUnit(plan: BuildPlan, n: nat, i: nat)
    requires i < n <= |plan.components|
    requires Staged(plan.components[i], InputsOf(plan.components, plan.contexts, plan.components[i].slug))
    ensures UnitAt(plan, i) in ComponentUnits(plan, n)
  {
    if i < n - 1 { StagedComponentHasUnit(plan, n - 1, i); }
  }

  predicate IsFoundAt(components: seq<Component>, slug: string, i: nat)
    requires i < |components|
  {
    components[i].slug == slug && FindComponent(components, slug) == Some(components[i])
  }

  lemma {:induction false} FoundComponentIsListed(components: seq<Component>, slug: string)
    requires FindComponent(components, slug).Some?
    ensures exists i :: 0 <= i < |components| && IsFoundAt(components, slug, i)
  {
    if components[|components| - 1].slug == slug {
      assert IsFoundAt(components, slug, |components| - 1);
    } else {
      FoundComponentIsListed(components[..|components| - 1], slug);
      var i :| 0 <= i < |components| - 1 && IsFoundAt(components[..|components| - 1], slug, i);
      assert IsFoundAt(components, slug, i);
    }
  }

  /** Every selected version context has its stage roots in the unit of its component. */
  lemma ContextRootsAreOwned(plan: BuildPlan, at: nat)
    requires at < |plan.contexts| && FindComponent(plan.components, plan.contexts[at].slug).Some?
    ensures var c := plan.contexts[at];
      var publicPath := PublicPath(FindComponent(plan.components, c.slug).value.publication, c);
      exists u :: u in PlannedUnits(plan) && u.id == ComponentId(c.slug)
        && StageRoot("content", publicPath) in u.contentRoots && StageRoot("static", publicPath) in u.staticRoots
  {
    var c := plan.contexts[at];
    FoundComponentIsListed(plan.components, c.slug);
    var i :| 0 <= i < |plan.components| && IsFoundAt(plan.components, c.slug, i);
    var component := plan.components[i];
    var inputs := InputsOf(plan.components, plan.contexts, c.slug);
    ContextIsAnInput(plan.components, plan.contexts, at);
    RootsOfInputs(inputs);
    DedupKeepsRoots([StageRoot("content", component.publication.componentPath)] + ContentRoots(inputs));
    DedupKeepsRoots([StageRoot("static", component.publication.assetsPath)] + StaticRoots(inputs));
    StagedComponentHasUnit(plan, |plan.components|, i);
    assert UnitAt(plan, i) in PlannedUnits(plan);
  }
}
