/** One staging run (staging/coordinator.py, staging/aggregates.py): seeding a
    candidate tree, running units, finalizing pages, writing aggregates.
    A tree maps file paths to files; directories exist as prefixes of files. */
module Staging {
  import opened Options
  import opened Ownership
  import opened Paths
  import opened Sorting

  // Pages and their contributions

  datatype Source = NoSource | RelativeSource(path: Path) | AbsoluteSource(path: Path)

  datatype Provenance = Provenance(key: string, path: Path)

  datatype PageOwner = PageOwner(component: string, artifact: Option<string>)

  datatype Contribution = Contribution(
    stagePath: Path, owner: PageOwner, translationKey: Option<string>, locale: Option<string>,
    publicUrl: Option<string>, canonicalUrl: Option<string>, source: Source, provenance: Option<Provenance>, facts: string)

  datatype Manifest = Manifest(unitId: string, pages: seq<Contribution>)

  /** The final front matter of a page: its component, its own facts and its translations, if any. */
  datatype Block = Authored(text: string) | Pipeline(component: Option<string>, page: Contribution, translations: seq<Contribution>)

  datatype OutputClaim = OutputClaim(owner: string, unitId: Option<string>, isDirectory: bool, path: Path)

  datatype GroupKey = GroupKey(owner: PageOwner, translationKey: string)

  datatype PageId = PageId(owner: PageOwner, path: Path)

  datatype File =
    | Page(meta: map<string, Block>, body: string)
    | Raw(bytes: string)
    | Translations(groups: map<GroupKey, seq<Contribution>>)
    | ContentIndex(entries: seq<Contribution>)
    | UnitContributions(manifests: seq<Manifest>)
    | AggregateDependencies(unitIds: seq<string>, files: seq<Path>)
    | OutputOwnership(claims: seq<OutputClaim>)
    | StageManifest(dataFiles: seq<Path>, stamp: string)

  type Tree = map<Path, File>

  // Source provenance

  datatype Binding = Binding(key: string, root: Path)

  /** The workspace-relative form of a page source; other sources are omitted. */
  function PublicSource(workspace: Path, source: Source): Source {
    match source
    case NoSource => NoSource
    case RelativeSource(p) => if p == [] || ".." in p then NoSource else source
    case AbsoluteSource(p) => if workspace <= p then RelativeSource(p[|workspace|..]) else NoSource
  }

  function ProvenanceOf(workspace: Path, binding: Option<Binding>, source: Source): Option<Provenance> {
    if source.NoSource? || binding.None? || (source.RelativeSource? && ".." in source.path) then None
    else
      var absolute := if source.AbsoluteSource? then source.path else workspace + source.path;
      if binding.value.root < absolute then Some(Provenance(binding.value.key, absolute[|binding.value.root|..])) else None
  }

  function BindingFor(bindings: map<PageOwner, Binding>, owner: PageOwner): Option<Binding> {
    if owner in bindings then Some(bindings[owner]) else None
  }

  function NormalizePage(workspace: Path, bindings: map<PageOwner, Binding>, c: Contribution): Contribution {
    c.(source := PublicSource(workspace, c.source),
       provenance := ProvenanceOf(workspace, BindingFor(bindings, c.owner), c.source))
  }

  function NormalizePages(workspace: Path, bindings: map<PageOwner, Binding>, pages: seq<Contribution>): (r: seq<Contribution>)
    ensures |r| == |pages|
  {
    if pages == [] then []
    else NormalizePages(workspace, bindings, pages[..|pages| - 1]) + [NormalizePage(workspace, bindings, pages[|pages| - 1])]
  }

  function Normalize(workspace: Path, bindings: map<PageOwner, Binding>, m: Manifest): Manifest {
    Manifest(m.unitId, NormalizePages(workspace, bindings, m.pages))
  }

  // Translations

  predicate Translatable(c: Contribution) { c.translationKey.Some? && c.locale.Some? && c.publicUrl.Some? }

  function KeyOf(c: Contribution): GroupKey
    requires Translatable(c)
  {
    GroupKey(c.owner, c.translationKey.value)
  }

  predicate InGroup(c: Contribution, key: GroupKey) { Translatable(c) && KeyOf(c) == key }

  function Group(pages: seq<Contribution>, key: GroupKey): (r: seq<Contribution>)
    ensures forall c :: c in r ==> InGroup(c, key)
  {
    if pages == [] then []
    else
      var last := pages[|pages| - 1];
      Group(pages[..|pages| - 1], key) + if InGroup(last, key) then [last] else []
  }

  predicate LocaleLe(a: Contribution, b: Contribution) {
    StringLe(if a.locale.Some? then a.locale.value else "", if b.locale.Some? then b.locale.value else "")
  }

  function OtherLocales(links: seq<Contribution>, locale: Option<string>): seq<Contribution> {
    if links == [] then []
    else
      var last := links[|links| - 1];
      OtherLocales(links[..|links| - 1], locale) + if last.locale != locale then [last] else []
  }

  /** The translation links of a page in a group: the group by locale, without its own locale. */
  function LinksOf(group: seq<Contribution>, locale: Option<string>): seq<Contribution> {
    OtherLocales(StableSort(group, LocaleLe), locale)
  }

  /** The groups in the order in which they begin. */
  function KeysInOrder(pages: seq<Contribution>): seq<GroupKey> {
    if pages == [] then []
    else
      var keys, last := KeysInOrder(pages[..|pages| - 1]), pages[|pages| - 1];
      if Translatable(last) && KeyOf(last) !in keys then keys + [KeyOf(last)] else keys
  }

  function IdOf(c: Contribution): PageId { PageId(c.owner, c.stagePath) }

  /** The last page of a group with the given identity. */
  function PageIn(group: seq<Contribution>, id: PageId): (r: Option<Contribution>)
    ensures r.Some? ==> r.value in group && IdOf(r.value) == id
  {
    if group == [] then None
    else if IdOf(group[|group| - 1]) == id then Some(group[|group| - 1])
    else PageIn(group[..|group| - 1], id)
  }

  /** The page whose links stand for an identity when the groups are worked off in order. */
  function LastLinked(pages: seq<Contribution>, keys: seq<GroupKey>, id: PageId): (r: Option<Contribution>)
    ensures r.Some? ==> Translatable(r.value)
  {
    if keys == [] then None
    else
      var c := PageIn(Group(pages, keys[|keys| - 1]), id);
      if c.Some? then c else LastLinked(pages, keys[..|keys| - 1], id)
  }

  /** The translation links looked up for a page. */
  function TranslationsOf(pages: seq<Contribution>, id: PageId): seq<Contribution> {
    var c := LastLinked(pages, KeysInOrder(pages), id);
    if c.None? then [] else LinksOf(Group(pages, KeyOf(c.value)), c.value.locale)
  }

  function GroupKeys(pages: seq<Contribution>): set<GroupKey> {
    set c | c in pages && Translatable(c) :: KeyOf(c)
  }

  // Finalizing pages

  function SetPipeline(f: File, block: Block): File {
    if f.Page? then f.(meta := f.meta["pipeline" := block]) else f
  }

  function BlockOf(summaries: map<string, string>, pages: seq<Contribution>, c: Contribution): Block {
    Pipeline(if c.owner.component in summaries then Some(summaries[c.owner.component]) else None, c, TranslationsOf(pages, IdOf(c)))
  }

  // A staging run

  datatype UnitOutput = UnitOutput(files: Tree, manifest: Option<Manifest>)

  /** What one run works from: the units of the plan, what each worker would
      produce from the current inputs, and the aggregates that depend only on
      the plan, the diagnostics, the provider snapshot and the clock. */
  datatype Run = Run(
    units: seq<Unit>, outputs: map<string, UnitOutput>, workspace: Path, bindings: map<PageOwner, Binding>,
    summaries: map<string, string>, planFiles: Tree, stamp: string)

  datatype Request = Request(run: Run, included: Option<set<string>>, seed: Tree, removals: set<Path>, retained: seq<Manifest>)

  datatype BuildError = DuplicateManifest(unitId: string) | MissingPage(path: Path) | MissingUrl(path: Path)

  function OutputOf(run: Run, u: Unit): UnitOutput {
    if u.id in run.outputs then run.outputs[u.id] else UnitOutput(map[], None)
  }

  /** The files of the units, a later unit overwriting an earlier one. */
  function Layer(run: Run, units: seq<Unit>): Tree {
    if units == [] then map[] else Layer(run, units[..|units| - 1]) + OutputOf(run, units[|units| - 1]).files
  }

  function FreshManifests(run: Run, units: seq<Unit>): seq<Manifest> {
    if units == [] then []
    else
      var m := OutputOf(run, units[|units| - 1]).manifest;
      FreshManifests(run, units[..|units| - 1])
      + if m.Some? then [Normalize(run.workspace, run.bindings, m.value)] else []
  }

  function NormalizeAll(run: Run, manifests: seq<Manifest>): seq<Manifest> {
    if manifests == [] then []
    else NormalizeAll(run, manifests[..|manifests| - 1])
         + [Normalize(run.workspace, run.bindings, manifests[|manifests| - 1])]
  }

  function Included(units: seq<Unit>, included: Option<set<string>>): seq<Unit> {
    if included.None? then units
    else if units == [] then []
    else
      var last := units[|units| - 1];
      Included(units[..|units| - 1], included) + if last.id in included.value then [last] else []
  }

  predicate Covered(p: Path, removals: set<Path>) { exists r :: r in removals && r <= p }

  /** A tree without everything at or beneath the removed paths. */
  function Prune(t: Tree, removals: set<Path>): Tree {
    map p | p in t && !Covered(p, removals) :: t[p]
  }

  function Flatten(manifests: seq<Manifest>): seq<Contribution> {
    if manifests == [] then [] else Flatten(manifests[..|manifests| - 1]) + manifests[|manifests| - 1].pages
  }

  predicate DistinctUnitIds(manifests: seq<Manifest>) {
    forall i, j :: 0 <= i < j < |manifests| ==> manifests[i].unitId != manifests[j].unitId
  }

  /** The contribution that finalizes path p last. */
  function PageAt(pages: seq<Contribution>, p: Path): Option<Contribution> {
    if pages == [] then None
    else if pages[|pages| - 1].stagePath == p then Some(pages[|pages| - 1])
    else PageAt(pages[..|pages| - 1], p)
  }

  function FinalizeFile(f: File, p: Path, summaries: map<string, string>, done: seq<Contribution>, pages: seq<Contribution>): File {
    var c := PageAt(done, p);
    if c.Some? then SetPipeline(f, BlockOf(summaries, pages, c.value)) else f
  }

  /** A tree whose pages named in done carry their final front matter. */
  function Finalized(t: Tree, summaries: map<string, string>, done: seq<Contribution>, pages: seq<Contribution>): Tree {
    map p | p in t :: FinalizeFile(t[p], p, summaries, done, pages)
  }

  const TRANSLATIONS: Path := ["data", "translations.json"]
  const CONTENT_INDEX: Path := ["data", "content-index.json"]
  const UNIT_CONTRIBUTIONS: Path := ["data", "_pipeline", "unit-contributions.json"]
  const OUTPUT_OWNERSHIP: Path := ["data", "_pipeline", "output-ownership.json"]
  const AGGREGATE_DEPENDENCIES: Path := ["data", "_pipeline", "aggregate-dependencies.json"]
  const MANIFEST: Path := ["manifest.json"]
  const COORDINATOR := "coordinator"

  function SortedGroups(pages: seq<Contribution>): map<GroupKey, seq<Contribution>> {
    map key | key in GroupKeys(pages) :: StableSort(Group(pages, key), LocaleLe)
  }

  /** The aggregates renderers read. */
  function SharedFiles(run: Run, pages: seq<Contribution>): Tree {
    run.planFiles + TranslationFile(pages) + IndexFile(pages)
  }

  function TranslationFile(pages: seq<Contribution>): Tree {
    if GroupKeys(pages) != {} then map[TRANSLATIONS := Translations(SortedGroups(pages))] else map[]
  }

  function IndexFile(pages: seq<Contribution>): Tree {
    if pages != [] then map[CONTENT_INDEX := ContentIndex(pages)] else map[]
  }

  /** The shared aggregate files in the order their paths are recorded. */
  const SHARED_PATHS: seq<Path> := [
    ["data", "components.json"], ["data", "artifacts.json"], ["data", "routes.json"], ["data", "redirects.json"],
    ["data", "releases.json"], ["data", "candidates.json"], ["data", "refs.json"], TRANSLATIONS,
    ["data", "compatibility.json"], ["data", "mounts.json"], ["data", "providers.json"], CONTENT_INDEX,
    ["data", "diagnostics.json"]]

  function Present(paths: seq<Path>, written: set<Path>): seq<Path> {
    if paths == [] then []
    else
      var last := paths[|paths| - 1];
      Present(paths[..|paths| - 1], written) + if last in written then [last] else []
  }

  /** The files the stage manifest names. */
  function DataFiles(written: set<Path>): seq<Path> {
    Present(SHARED_PATHS, written) + [UNIT_CONTRIBUTIONS, OUTPUT_OWNERSHIP, AGGREGATE_DEPENDENCIES]
  }

  function CoordinatorPaths(written: set<Path>): seq<Path> { DataFiles(written) + [MANIFEST] }

  function IdsOf(units: seq<Unit>): seq<string> {
    if units == [] then [] else IdsOf(units[..|units| - 1]) + [units[|units| - 1].id]
  }

  function RootClaimsOf(u: Unit, roots: seq<Path>): seq<OutputClaim> {
    if roots == [] then []
    else RootClaimsOf(u, roots[..|roots| - 1]) + [OutputClaim(u.owner, Some(u.id), true, roots[|roots| - 1])]
  }

  function UnitClaims(units: seq<Unit>): seq<OutputClaim> {
    if units == [] then []
    else UnitClaims(units[..|units| - 1]) + RootClaimsOf(units[|units| - 1], units[|units| - 1].Roots())
  }

  function CoordinatorClaims(paths: seq<Path>): seq<OutputClaim> {
    if paths == [] then []
    else CoordinatorClaims(paths[..|paths| - 1]) + [OutputClaim(COORDINATOR, None, false, paths[|paths| - 1])]
  }

  /** By path, then kind, then owner, then unit. */
  predicate OutputClaimLe(a: OutputClaim, b: OutputClaim) {
    var pa, pb := Join(a.path), Join(b.path);
    if pa != pb then StringLe(pa, pb)
    else if a.isDirectory != b.isDirectory then a.isDirectory
    else if a.owner != b.owner then StringLe(a.owner, b.owner)
    else StringLe(if a.unitId.Some? then a.unitId.value else "", if b.unitId.Some? then b.unitId.value else "")
  }

  function OwnershipMap(units: seq<Unit>, written: set<Path>): seq<OutputClaim> {
    StableSort(UnitClaims(units) + CoordinatorClaims(CoordinatorPaths(written)), OutputClaimLe)
  }

  /** Everything the coordinator writes itself. */
  function CoordinatorFiles(run: Run, manifests: seq<Manifest>): Tree {
    var shared := SharedFiles(run, Flatten(manifests));
    shared + MetadataFiles(run, shared.Keys) + map[UNIT_CONTRIBUTIONS := UnitContributions(manifests)]
  }

  function MetadataFiles(run: Run, shared: set<Path>): Tree {
    map[
      OUTPUT_OWNERSHIP := OutputOwnership(OwnershipMap(run.units, shared)),
      AGGREGATE_DEPENDENCIES := AggregateDependencies(StableSort(IdsOf(run.units), StringLe), Present(SHARED_PATHS, shared)),
      MANIFEST := StageManifest(DataFiles(shared), run.stamp)]
  }

  predicate HasUrl(c: Contribution) { c.publicUrl.Some? || c.canonicalUrl.Some? }

  predicate AllHaveUrls(pages: seq<Contribution>) { forall i :: 0 <= i < |pages| ==> HasUrl(pages[i]) }

  predicate IsPresent(t: Tree, c: Contribution) { c.stagePath in t && t[c.stagePath].Page? }

  predicate PagesPresent(t: Tree, pages: seq<Contribution>) {
    forall i :: 0 <= i < |pages| ==> IsPresent(t, pages[i])
  }

  /** What a run leaves in the candidate tree before the coordinator writes. */
  function Candidate(request: Request): Tree {
    Prune(request.seed, request.removals) + Layer(request.run, Included(request.run.units, request.included))
  }

  function LoadedManifests(request: Request): seq<Manifest> {
    NormalizeAll(request.run, request.retained)
    + FreshManifests(request.run, Included(request.run.units, request.included))
  }

  predicate Succeeds(request: Request) {
    var manifests := LoadedManifests(request);
    DistinctUnitIds(manifests) && PagesPresent(Candidate(request), Flatten(manifests)) && AllHaveUrls(Flatten(manifests))
  }

  /** The finished stage over unit files t and manifests in the given order. */
  function Stage(run: Run, t: Tree, manifests: seq<Manifest>): Tree {
    Finalized(t, run.summaries, Flatten(manifests), Flatten(manifests)) + CoordinatorFiles(run, manifests)
  }

  function StageOf(request: Request): Tree { Stage(request.run, Candidate(request), LoadedManifests(request)) }

  // The run, step by step

  predicate Exists(t: Tree, r: Path) { exists p :: p in t && r <= p }

  /** Copies the seed and removes the listed paths, in any order. */
  method SeedNextStage(seed: Tree, removals: set<Path>) returns (candidate: Tree)
    ensures candidate == Prune(seed, removals)
  {
    candidate := seed;
    var left := removals;
    while left != {}
      invariant left <= removals && candidate == Prune(seed, removals - left)
      decreases left
    {
      var r :| r in left;
      PruneStep(seed, removals - left, r);
      left := left - {r};
      assert removals - left == removals - (left + {r}) + {r};
      if !Exists(candidate, r) { continue; }
      candidate := map p | p in candidate && !(r <= p) :: candidate[p];
    }
    assert removals - {} == removals;
  }

  lemma PruneStep(seed: Tree, removed: set<Path>, r: Path)
    ensures var before := Prune(seed, removed);
      && Prune(seed, removed + {r}) == (map p | p in before && !(r <= p) :: before[p])
      && (!Exists(before, r) ==> Prune(seed, removed + {r}) == before)
  {
    forall p ensures Covered(p, removed + {r}) <==> Covered(p, removed) || r <= p {
      if Covered(p, removed) {
        var q :| q in removed && q <= p;
        assert q in removed + {r};
      }
      assert r in removed + {r};
    }
  }

  /** Runs the included units in order, each writing its files. */
  method RunOwnedUnits(request: Request, candidate: Tree) returns (written: Tree, built: seq<Manifest>)
    ensures written == candidate + Layer(request.run, Included(request.run.units, request.included))
    ensures built == FreshManifests(request.run, Included(request.run.units, request.included))
  {
    var units := Included(request.run.units, request.included);
    written, built := candidate, [];
    for i := 0 to |units|
      invariant written == candidate + Layer(request.run, units[..i])
      invariant built == FreshManifests(request.run, units[..i])
    {
      LayerStep(request.run, units, i);
      var output := OutputOf(request.run, units[i]);
      OverlayAssociates(candidate, Layer(request.run, units[..i]), output.files);
      written := written + output.files;
      if output.manifest.Some? {
        built := built + [Normalize(request.run.workspace, request.run.bindings, output.manifest.value)];
      }
    }
    assert units[..|units|] == units;
  }

  lemma LayerStep(run: Run, units: seq<Unit>, i: nat)
    requires i < |units|
    ensures Layer(run, units[..i + 1]) == Layer(run, units[..i]) + OutputOf(run, units[i]).files
    ensures FreshManifests(run, units[..i + 1]) == FreshManifests(run, units[..i])
      + if OutputOf(run, units[i]).manifest.Some?
        then [Normalize(run.workspace, run.bindings, OutputOf(run, units[i]).manifest.value)] else []
  {
    assert units[..i + 1][..i] == units[..i];
  }

  lemma OverlayAssociates(a: Tree, b: Tree, c: Tree)
    ensures (a + b) + c == a + (b + c)
  {
  }

  ghost predicate SeenIds(seen: set<string>, manifests: seq<Manifest>) {
    seen == set m | m in manifests :: m.unitId
  }

  /** The manifest at j repeats the unit of an earlier one, and none before it does. */
  ghost predicate RepeatsUnit(manifests: seq<Manifest>, j: nat, id: string) {
    j < |manifests| && manifests[j].unitId == id && DistinctUnitIds(manifests[..j]) && !DistinctUnitIds(manifests[..j + 1])
  }

  /** Registers manifests one by one and rejects a repeated unit. */
  method RegisterManifests(manifests: seq<Manifest>) returns (r: Result<(), BuildError>)
    ensures r.Ok? <==> DistinctUnitIds(manifests)
    ensures r.Err? ==> r.error.DuplicateManifest? && exists j :: RepeatsUnit(manifests, j, r.error.unitId)
  {
    var seen: set<string> := {};
    for i := 0 to |manifests|
      invariant DistinctUnitIds(manifests[..i]) && SeenIds(seen, manifests[..i])
    {
      if manifests[i].unitId in seen {
        var m :| m in manifests[..i] && m.unitId == manifests[i].unitId;
        var k :| 0 <= k < i && manifests[k] == m;
        assert manifests[..i + 1][k].unitId == manifests[..i + 1][i].unitId;
        assert RepeatsUnit(manifests, i, manifests[i].unitId);
        return Err(DuplicateManifest(manifests[i].unitId));
      }
      assert manifests[i] in manifests[..i + 1];
      assert manifests[..i + 1] == manifests[..i] + [manifests[i]];
      assert forall k :: 0 <= k < i ==> manifests[k] in manifests[..i];
      seen := seen + {manifests[i].unitId};
    }
    assert manifests[..|manifests|] == manifests;
    r := Ok(());
  }

  function Lookup(links: map<PageId, seq<Contribution>>, id: PageId): Option<seq<Contribution>> {
    if id in links then Some(links[id]) else None
  }

  /** The links of a page once the done pages of a group have theirs. */
  ghost function LinkedAfter(
      before: map<PageId, seq<Contribution>>, group: seq<Contribution>, done: seq<Contribution>, id: PageId): Option<seq<Contribution>> {
    var c := PageIn(done, id);
    if c.Some? then Some(LinksOf(group, c.value.locale)) else Lookup(before, id)
  }

  ghost function LinksBy(pages: seq<Contribution>, keys: seq<GroupKey>, id: PageId): Option<seq<Contribution>> {
    var c := LastLinked(pages, keys, id);
    if c.None? then None else Some(LinksOf(Group(pages, KeyOf(c.value)), c.value.locale))
  }

  /** Collects the translation links of every page, group by group. */
  method TranslationsByPage(pages: seq<Contribution>) returns (links: map<PageId, seq<Contribution>>)
    ensures forall id :: (if id in links then links[id] else []) == TranslationsOf(pages, id)
  {
    var grouped, order := GroupPages(pages);
    links := map[];
    for k := 0 to |order|
      invariant forall id :: Lookup(links, id) == LinksBy(pages, order[..k], id)
    {
      var group := grouped[order[k]];
      assert order[..k + 1][..k] == order[..k];
      links := LinkGroup(links, group);
    }
    assert order[..|order|] == order;
    forall id ensures (if id in links then links[id] else []) == TranslationsOf(pages, id) {
      assert Lookup(links, id) == LinksBy(pages, order, id);
    }
  }

  /** Gives each page of a group its links, replacing what an earlier group gave it. */
  method LinkGroup(before: map<PageId, seq<Contribution>>, group: seq<Contribution>) returns (links: map<PageId, seq<Contribution>>)
    ensures forall id :: Lookup(links, id) == LinkedAfter(before, group, group, id)
  {
    links := before;
    for j := 0 to |group|
      invariant forall id :: Lookup(links, id) == LinkedAfter(before, group, group[..j], id)
    {
      assert group[..j + 1][..j] == group[..j];
      ghost var was := links;
      links := links[IdOf(group[j]) := LinksOf(group, group[j].locale)];
      forall id ensures Lookup(links, id) == LinkedAfter(before, group, group[..j + 1], id) {
        assert Lookup(was, id) == LinkedAfter(before, group, group[..j], id);
      }
    }
    assert group[..|group|] == group;
  }

  /** The pages of each translation group, and the groups in the order they begin. */
  method GroupPages(pages: seq<Contribution>) returns (grouped: map<GroupKey, seq<Contribution>>, order: seq<GroupKey>)
    ensures order == KeysInOrder(pages)
    ensures forall key :: key in order ==> key in grouped && grouped[key] == Group(pages, key)
  {
    grouped, order := map[], [];
    for i := 0 to |pages|
      invariant order == KeysInOrder(pages[..i])
      invariant forall key :: key in order <==> key in grouped
      invariant forall key :: Group(pages[..i], key) == if key in grouped then grouped[key] else []
    {
      assert pages[..i + 1][..i] == pages[..i];
      var c := pages[i];
      if !Translatable(c) { continue; }
      if KeyOf(c) !in grouped {
        order, grouped := order + [KeyOf(c)], grouped[KeyOf(c) := []];
      }
      grouped := grouped[KeyOf(c) := grouped[KeyOf(c)] + [c]];
    }
    assert pages[..|pages|] == pages;
  }

  /** The first contribution that cannot be finalized, and why. */
  ghost predicate FailsAt(t: Tree, pages: seq<Contribution>, i: nat, e: BuildError) {
    && i < |pages| && (forall k :: 0 <= k < i ==> HasUrl(pages[k]) && IsPresent(t, pages[k]))
    && if HasUrl(pages[i]) then !IsPresent(t, pages[i]) && e == MissingPage(pages[i].stagePath) else e == MissingUrl(pages[i].stagePath)
  }

  /** Rewrites the front matter of the contributed pages one by one. */
  method FinalizePages(t: Tree, summaries: map<string, string>, pages: seq<Contribution>) returns (r: Result<Tree, BuildError>)
    ensures r.Ok? <==> PagesPresent(t, pages) && AllHaveUrls(pages)
    ensures r.Ok? ==> r.value == Finalized(t, summaries, pages, pages)
    ensures r.Err? ==> exists i :: FailsAt(t, pages, i, r.error)
  {
    var links := TranslationsByPage(pages);
    var current := t;
    for i := 0 to |pages|
      invariant forall k :: 0 <= k < i ==> HasUrl(pages[k]) && IsPresent(t, pages[k])
      invariant current == Finalized(t, summaries, pages[..i], pages)
    {
      var c := pages[i];
      if c.publicUrl.None? && c.canonicalUrl.None? {
        assert FailsAt(t, pages, i, MissingUrl(c.stagePath));
        return Err(MissingUrl(c.stagePath));
      }
      if !IsPresent(current, c) {
        assert FailsAt(t, pages, i, MissingPage(c.stagePath));
        return Err(MissingPage(c.stagePath));
      }
      FinalizeStep(t, summaries, pages, i);
      var component := if c.owner.component in summaries then Some(summaries[c.owner.component]) else None;
      var block := Pipeline(component, c, if IdOf(c) in links then links[IdOf(c)] else []);
      assert block == BlockOf(summaries, pages, c);
      current := current[c.stagePath := SetPipeline(current[c.stagePath], block)];
    }
    assert pages[..|pages|] == pages;
    r := Ok(current);
  }

  /** Finalizing a page again replaces what an earlier finalization wrote. */
  lemma FinalizeStep(t: Tree, summaries: map<string, string>, pages: seq<Contribution>, i: nat)
    requires i < |pages| && pages[i].stagePath in t && t[pages[i].stagePath].Page?
    ensures var before := Finalized(t, summaries, pages[..i], pages);
      var path := pages[i].stagePath;
      Finalized(t, summaries, pages[..i + 1], pages)
      == before[path := SetPipeline(before[path], BlockOf(summaries, pages, pages[i]))]
  {
    assert pages[..i + 1][..i] == pages[..i];
    var path, f := pages[i].stagePath, t[pages[i].stagePath];
    var c := PageAt(pages[..i], path);
    if c.Some? {
      SetPipelineTwice(f, BlockOf(summaries, pages, c.value), BlockOf(summaries, pages, pages[i]));
    }
  }

  lemma SetPipelineTwice(f: File, a: Block, b: Block)
    ensures SetPipeline(SetPipeline(f, a), b) == SetPipeline(f, b)
  {
    if f.Page? { assert f.meta["pipeline" := a]["pipeline" := b] == f.meta["pipeline" := b]; }
  }

  ghost predicate FailsWith(request: Request, e: BuildError) {
    var manifests := LoadedManifests(request);
    if e.DuplicateManifest? then exists j :: RepeatsUnit(manifests, j, e.unitId)
    else DistinctUnitIds(manifests) && exists i :: FailsAt(Candidate(request), Flatten(manifests), i, e)
  }

  /** A build from scratch or from a seed. */
  method RunBuild(request: Request) returns (r: Result<Tree, BuildError>)
    ensures r.Ok? <==> Succeeds(request)
    ensures r.Ok? ==> r.value == StageOf(request)
    ensures r.Err? ==> FailsWith(request, r.error)
  {
    var seeded := SeedNextStage(request.seed, request.removals);
    var candidate, built := RunOwnedUnits(request, seeded);
    var manifests := NormalizeAll(request.run, request.retained) + built;
    var registered := RegisterManifests(manifests);
    if registered.Err? { return Err(registered.error); }
    var finalized := FinalizePages(candidate, request.run.summaries, Flatten(manifests));
    if finalized.Err? { return Err(finalized.error); }
    r := Ok(finalized.value + CoordinatorFiles(request.run, manifests));
  }

  /** Describes every output root and shared file exactly once. */
  method BuildOutputOwnershipMap(units: seq<Unit>, written: set<Path>) returns (claims: seq<OutputClaim>)
    ensures claims == OwnershipMap(units, written)
  {
    claims := [];
    for i := 0 to |units|
      invariant claims == UnitClaims(units[..i])
    {
      var roots := units[i].Roots();
      assert units[..i + 1][..i] == units[..i];
      for j := 0 to |roots|
        invariant claims == UnitClaims(units[..i]) + RootClaimsOf(units[i], roots[..j])
      {
        assert roots[..j + 1][..j] == roots[..j];
        claims := claims + [OutputClaim(units[i].owner, Some(units[i].id), true, roots[j])];
      }
      assert roots[..|roots|] == roots;
    }
    assert units[..|units|] == units;
    var paths := CoordinatorPaths(written);
    for i := 0 to |paths|
      invariant claims == UnitClaims(units) + CoordinatorClaims(paths[..i])
    {
      assert paths[..i + 1][..i] == paths[..i];
      claims := claims + [OutputClaim(COORDINATOR, None, false, paths[i])];
    }
    assert paths[..|paths|] == paths;
    claims := StableSort(claims, OutputClaimLe);
  }

  /** Worker results in the order of their specs, whatever order they complete in. */
  method CollectInOrder<R(0)>(results: seq<R>, completion: seq<nat>) returns (ordered: seq<R>)
    requires forall i :: 0 <= i < |completion| ==> completion[i] < |results|
    requires forall k :: 0 <= k < |results| ==> k in completion
    ensures ordered == results
  {
    var slots := new Option<R>[|results|](_ => None);
    for i := 0 to |completion|
      invariant forall k :: 0 <= k < |results| ==> slots[k] == if k in completion[..i] then Some(results[k]) else None
    {
      assert completion[..i + 1] == completion[..i] + [completion[i]];
      slots[completion[i]] := Some(results[completion[i]]);
    }
    assert completion[..|completion|] == completion;
    ordered := [];
    for k := 0 to slots.Length
      invariant ordered == results[..k]
    {
      if slots[k].Some? { ordered := ordered + [slots[k].value]; }
    }
  }
}
