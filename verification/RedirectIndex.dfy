/** The redirect aggregate of staging (staging/aggregates.py) and its agreement
    with the routes an evaluation validated. */
module RedirectIndex {
  import opened Options
  import opened Paths
  import opened Plan
  import opened RedirectLoops
  import opened Routes
  import PublicPaths

  datatype Place = Place(origin: string, path: string)

  type PlaceMap = map<RouteKey, Place>

  datatype Staged = Staged(places: PlaceMap, targets: map<string, Place>)

  datatype StageError = UnresolvedTarget(target: string) | UnknownOrigin(origin: string)

  function KeyOfPlace(lower: string -> string, p: Place): RouteKey { Key(lower, p.origin, p.path) }

  // Building the index

  function IndexPlace(lower: string -> string, places: PlaceMap, r: KnownRoute): PlaceMap {
    places[KeyOf(lower, r) := Place(r.origin, r.path)]
  }

  /** Later places replace earlier ones. */
  function IndexPlaces(lower: string -> string, places: PlaceMap, list: seq<KnownRoute>): PlaceMap {
    if list == [] then places
    else IndexPlace(lower, IndexPlaces(lower, places, list[..|list| - 1]), list[|list| - 1])
  }

  function RoutesOfComponent(c: Component): seq<KnownRoute> {
    PublishedOf(c) + AliasRoutes(c, c.publication.aliases)
  }

  function PreferredPlace(lower: string -> string, places: PlaceMap, c: Component): Place {
    var canonical := c.publication.canonicalPath;
    if canonical.Some? && Key(lower, c.publication.origin, canonical.value) in places
    then places[Key(lower, c.publication.origin, canonical.value)]
    else Place(c.publication.origin, c.publication.componentPath)
  }

  function StageComponent(lower: string -> string, staged: Staged, c: Component): Staged {
    var places := IndexPlaces(lower, staged.places, RoutesOfComponent(c));
    Staged(places, staged.targets[ComponentReference(c.slug) := PreferredPlace(lower, places, c)])
  }

  function StagedUpTo(lower: string -> string, components: seq<Component>, n: nat): Staged
    requires n <= |components|
  {
    if n == 0 then Staged(map[], map[]) else StageComponent(lower, StagedUpTo(lower, components, n - 1), components[n - 1])
  }

  function PlaceOfContext(components: seq<Component>, c: Context): Place
    requires FindComponent(components, c.slug).Some?
  {
    var publication := FindComponent(components, c.slug).value.publication;
    Place(publication.origin, PublicPath(publication, c))
  }

  /** The references a context answers to: its release line and its version. */
  function WithReferences(targets: map<string, Place>, c: Context, place: Place): map<string, Place> {
    var lines := if c.artifact.Some? && c.releaseLine.Some?
                 then targets[LineReference(c.slug, c.artifact.value, c.releaseLine.value) := place] else targets;
    if c.artifact.Some? && c.version.Some?
    then lines[ReleaseReference(c.slug, c.artifact.value, c.version.value) := place] else lines
  }

  function StageContext(lower: string -> string, staged: Staged, components: seq<Component>, c: Context): Staged
    requires FindComponent(components, c.slug).Some?
  {
    Staged(IndexPlace(lower, staged.places, RouteOfContext(components, c)),
           WithReferences(staged.targets, c, PlaceOfContext(components, c)))
  }

  function StageContexts(lower: string -> string, staged: Staged, components: seq<Component>, contexts: seq<Context>): Staged
    requires ContextsKnown(components, contexts)
  {
    if contexts == [] then staged
    else StageContext(lower, StageContexts(lower, staged, components, contexts[..|contexts| - 1]), components, contexts[|contexts| - 1])
  }

  function StagedIndex(lower: string -> string, plan: BuildPlan): Staged
    requires ContextsKnown(plan.components, plan.contexts)
  {
    StageContexts(lower, StagedUpTo(lower, plan.components, |plan.components|), plan.components, plan.contexts)
  }

  lemma {:induction false} PlacesConcat(lower: string -> string, places: PlaceMap, a: seq<KnownRoute>, b: seq<KnownRoute>)
    ensures IndexPlaces(lower, places, a + b) == IndexPlaces(lower, IndexPlaces(lower, places, a), b)
  {
    if b == [] {
      assert a + b == a;
    } else {
      PlacesConcat(lower, places, a, b[..|b| - 1]);
      assert (a + b)[..|a + b| - 1] == a + b[..|b| - 1];
    }
  }

  method IndexRoutes(lower: string -> string, places: PlaceMap, list: seq<KnownRoute>) returns (more: PlaceMap)
    ensures more == IndexPlaces(lower, places, list)
  {
    more := places;
    for i := 0 to |list|
      invariant more == IndexPlaces(lower, places, list[..i])
    {
      assert list[..i + 1][..i] == list[..i];
      more := IndexPlace(lower, more, list[i]);
    }
    assert list[..|list|] == list;
  }

  method IndexComponent(lower: string -> string, places: PlaceMap, c: Component) returns (more: PlaceMap)
    ensures more == IndexPlaces(lower, places, RoutesOfComponent(c))
  {
    more := IndexRoutes(lower, places, PublishedOf(c));
    more := IndexRoutes(lower, more, AliasRoutes(c, c.publication.aliases));
    PlacesConcat(lower, places, PublishedOf(c), AliasRoutes(c, c.publication.aliases));
  }

  method BuildRedirectResolutionIndex(lower: string -> string, plan: BuildPlan) returns (staged: Staged)
    requires ContextsKnown(plan.components, plan.contexts)
    ensures staged == StagedIndex(lower, plan)
  {
    staged := Staged(map[], map[]);
    for i := 0 to |plan.components|
      invariant staged == StagedUpTo(lower, plan.components, i)
    {
      var c := plan.components[i];
      var places := IndexComponent(lower, staged.places, c);
      staged := Staged(places, staged.targets[ComponentReference(c.slug) := PreferredPlace(lower, places, c)]);
    }
    ghost var components := staged;
    for i := 0 to |plan.contexts|
      invariant staged == StageContexts(lower, components, plan.components, plan.contexts[..i])
    {
      assert plan.contexts[..i + 1][..i] == plan.contexts[..i];
      staged := StageContext(lower, staged, plan.components, plan.contexts[i]);
    }
    assert plan.contexts[..|plan.contexts|] == plan.contexts;
  }

  // Resolving

  function ResolvePlace(lower: string -> string, staged: Staged, origin: string, target: string): Option<Place> {
    if IsRouteReference(target) then
      var key := RouteKey(origin, lower(Payload(target)));
      if key in staged.places then Some(staged.places[key]) else None
    else if target in staged.targets then Some(staged.targets[target])
    else None
  }

  function PublicUrl(baseUrl: string, path: string): string { PublicPaths.RStrip(baseUrl) + path }

  function ResolveTargetUrl(
      lower: string -> string, staged: Staged, origins: map<string, string>, origin: string, target: string): Result<string, StageError> {
    if IsExternal(target) then Ok(target)
    else
      var place := ResolvePlace(lower, staged, origin, target);
      if place.None? then Err(UnresolvedTarget(target))
      else if place.value.origin !in origins then Err(UnknownOrigin(place.value.origin))
      else Ok(PublicUrl(origins[place.value.origin], place.value.path))
  }

  datatype RedirectEntry = RedirectEntry(fromUrl: string, toUrl: string)

  /** The withdrawn releases that redirect. */
  function StagedContextHops(components: seq<Component>, contexts: seq<Context>): seq<Hop>
    requires ContextsKnown(components, contexts)
  {
    if contexts == [] then []
    else
      var last := contexts[|contexts| - 1];
      StagedContextHops(components, contexts[..|contexts| - 1])
      + if last.kind == Released && Redirects(last) then [HopOfContext(components, last)] else []
  }

  function StagedHops(plan: BuildPlan): seq<Hop>
    requires ContextsKnown(plan.components, plan.contexts)
  {
    ComponentHops(plan.components) + StagedContextHops(plan.components, plan.contexts)
  }

  predicate Writable(lower: string -> string, staged: Staged, origins: map<string, string>, h: Hop) {
    h.origin in origins && ResolveTargetUrl(lower, staged, origins, h.origin, h.target).Ok?
  }

  /** A resolved publication carries the origin it names. */
  predicate PublicationOriginsKnown(plan: BuildPlan, origins: map<string, string>) {
    forall i :: 0 <= i < |plan.components| ==> plan.components[i].publication.origin in origins
  }

  /** b is the text without the slashes at its end. */
  predicate WithoutSlashes(text: string, b: string) {
    && b <= text && (forall k :: |b| <= k < |text| ==> text[k] == '/')
    && (b == "" || b[|b| - 1] != '/')
  }

  /** The URL is a base without the slashes at its end, followed by a path. */
  ghost predicate Beneath(url: string, base: string, path: string) {
    exists b :: WithoutSlashes(base, b) && url == b + path
  }

  lemma {:induction false} StrippedBase(base: string)
    ensures WithoutSlashes(base, PublicPaths.RStrip(base))
  {
    if base != "" && base[|base| - 1] == '/' { StrippedBase(base[..|base| - 1]); }
  }

  /** What an entry says: where the redirect starts and where it leads, an external
      target as it is, a resolved one beneath the base of its origin. */
  ghost predicate Written(lower: string -> string, staged: Staged, origins: map<string, string>, h: Hop, e: RedirectEntry) {
    && h.origin in origins && Beneath(e.fromUrl, origins[h.origin], h.path)
    && if "http://" <= h.target || "https://" <= h.target then e.toUrl == h.target
       else
         var place := ResolvePlace(lower, staged, h.origin, h.target);
         place.Some? && place.value.origin in origins && Beneath(e.toUrl, origins[place.value.origin], place.value.path)
  }

  lemma EntryIsWritten(lower: string -> string, staged: Staged, origins: map<string, string>, h: Hop)
    requires Writable(lower, staged, origins, h)
    ensures Written(lower, staged, origins, h,
      RedirectEntry(PublicUrl(origins[h.origin], h.path), ResolveTargetUrl(lower, staged, origins, h.origin, h.target).value))
  {
    StrippedBase(origins[h.origin]);
    if !IsExternal(h.target) { StrippedBase(origins[ResolvePlace(lower, staged, h.origin, h.target).value.origin]); }
  }

  /** Why a redirect cannot be written. */
  predicate Unwritable(lower: string -> string, staged: Staged, origins: map<string, string>, h: Hop, e: StageError) {
    var place := ResolvePlace(lower, staged, h.origin, h.target);
    if h.origin !in origins then e == UnknownOrigin(h.origin)
    else if IsExternal(h.target) then false
    else if place.None? then e == UnresolvedTarget(h.target)
    else place.value.origin !in origins && e == UnknownOrigin(place.value.origin)
  }

  method WriteEntry(lower: string -> string, staged: Staged, origins: map<string, string>, h: Hop) returns (r: Result<RedirectEntry, StageError>)
    ensures r.Ok? <==> Writable(lower, staged, origins, h)
    ensures r.Ok? ==> Written(lower, staged, origins, h, r.value)
    ensures r.Err? ==> Unwritable(lower, staged, origins, h, r.error)
  {
    if h.origin !in origins { return Err(UnknownOrigin(h.origin)); }
    var url := ResolveTargetUrl(lower, staged, origins, h.origin, h.target);
    if url.Err? { return Err(url.error); }
    EntryIsWritten(lower, staged, origins, h);
    r := Ok(RedirectEntry(PublicUrl(origins[h.origin], h.path), url.value));
  }

  /** One entry per redirect, or the first that cannot be written. */
  method BuildRedirectEntries(lower: string -> string, plan: BuildPlan, origins: map<string, string>)
    returns (r: Result<seq<RedirectEntry>, StageError>)
    requires ContextsKnown(plan.components, plan.contexts) && PublicationOriginsKnown(plan, origins)
    ensures var hops := StagedHops(plan);
      r.Ok? <==> forall i :: 0 <= i < |hops| ==> Writable(lower, StagedIndex(lower, plan), origins, hops[i])
    ensures r.Ok? ==> |r.value| == |StagedHops(plan)|
    ensures r.Ok? ==> forall i :: 0 <= i < |r.value| ==> Written(lower, StagedIndex(lower, plan), origins, StagedHops(plan)[i], r.value[i])
    ensures r.Err? ==> exists h :: h in StagedHops(plan) && Unwritable(lower, StagedIndex(lower, plan), origins, h, r.error)
  {
    var staged := BuildRedirectResolutionIndex(lower, plan);
    var hops := StagedHops(plan);
    var entries: seq<RedirectEntry> := [];
    for i := 0 to |hops|
      invariant |entries| == i
      invariant forall k :: 0 <= k < i ==> Writable(lower, staged, origins, hops[k])
      invariant forall k :: 0 <= k < i ==> Written(lower, staged, origins, hops[k], entries[k])
    {
      var entry := WriteEntry(lower, staged, origins, hops[i]);
      if entry.Err? { return Err(entry.error); }
      entries := entries + [entry.value];
    }
    r := Ok(entries);
  }
}
