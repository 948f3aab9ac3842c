/** Contribution manifests as sets: what a staging run makes of its manifests
    does not depend on the order they are loaded in, except for the two files
    that list them in that order. */
module Manifests {
  import opened Options
  import opened Ownership
  import opened Paths
  import opened Staging

  /** Pages belong to the component their unit stages. */
  ghost predicate Local(ms: seq<Manifest>) {
    forall m, c :: m in ms && c in m.pages ==> ComponentId(c.owner.component) == m.unitId
  }

  predicate HasPageAt(m: Manifest, p: Path) { exists c :: c in m.pages && c.stagePath == p }

  /** No two units contribute a page at the same path. */
  ghost predicate PathsApart(ms: seq<Manifest>) {
    forall m, n, p :: m in ms && n in ms && HasPageAt(m, p) && HasPageAt(n, p) ==> m.unitId == n.unitId
  }

  ghost predicate Coherent(ms: seq<Manifest>) { DistinctUnitIds(ms) && Local(ms) && PathsApart(ms) }

  ghost predicate SameManifests(a: seq<Manifest>, b: seq<Manifest>) {
    DistinctUnitIds(a) && DistinctUnitIds(b) && forall m :: m in a <==> m in b
  }

  function OfUnit(ms: seq<Manifest>, id: string): Option<Manifest> {
    if ms == [] then None
    else if ms[|ms| - 1].unitId == id then Some(ms[|ms| - 1])
    else OfUnit(ms[..|ms| - 1], id)
  }

  lemma {:induction false} OfUnitFinds(ms: seq<Manifest>, id: string)
    ensures OfUnit(ms, id).Some? ==> OfUnit(ms, id).value in ms && OfUnit(ms, id).value.unitId == id
    ensures DistinctUnitIds(ms) ==> forall m :: m in ms && m.unitId == id ==> OfUnit(ms, id) == Some(m)
    ensures OfUnit(ms, id).None? ==> forall m :: m in ms ==> m.unitId != id
  {
    if ms != [] {
      var front, last := ms[..|ms| - 1], ms[|ms| - 1];
      OfUnitFinds(front, id);
      assert ms == front + [last];
      if DistinctUnitIds(ms) { LastIsNew(ms); }
    }
  }

  lemma SameManifestsSameUnits(a: seq<Manifest>, b: seq<Manifest>, id: string)
    requires SameManifests(a, b)
    ensures OfUnit(a, id) == OfUnit(b, id)
  {
    OfUnitFinds(a, id);
    OfUnitFinds(b, id);
  }

  lemma {:induction false} SameManifestsArePermutations(a: seq<Manifest>, b: seq<Manifest>)
    requires SameManifests(a, b)
    ensures multiset(a) == multiset(b)
  {
    forall m ensures multiset(a)[m] == multiset(b)[m] {
      CountedOnce(a, m);
      CountedOnce(b, m);
    }
  }

  lemma LastIsNew(ms: seq<Manifest>)
    requires DistinctUnitIds(ms) && ms != []
    ensures forall n :: n in ms[..|ms| - 1] ==> n.unitId != ms[|ms| - 1].unitId
    ensures DistinctUnitIds(ms[..|ms| - 1])
  {
  }

  lemma {:induction false} CountedOnce(ms: seq<Manifest>, m: Manifest)
    requires DistinctUnitIds(ms)
    ensures multiset(ms)[m] == if m in ms then 1 else 0
  {
    if ms != [] {
      var front, last := ms[..|ms| - 1], ms[|ms| - 1];
      CountedOnce(front, m);
      assert ms == front + [last];
      LastIsNew(ms);
    }
  }

  // Groups

  lemma {:induction false} GroupConcat(a: seq<Contribution>, b: seq<Contribution>, key: GroupKey)
    ensures Group(a + b, key) == Group(a, key) + Group(b, key)
  {
    if b == [] {
      assert a + b == a;
    } else {
      var front := b[..|b| - 1];
      GroupConcat(a, front, key);
      assert (a + b)[..|a + b| - 1] == a + front;
    }
  }

  lemma {:induction false} NoGroup(pages: seq<Contribution>, key: GroupKey)
    requires forall c :: c in pages ==> c.owner.component != key.owner.component
    ensures Group(pages, key) == []
  {
    if pages != [] {
      NoGroup(pages[..|pages| - 1], key);
      assert pages[|pages| - 1] in pages;
    }
  }

  function GroupIn(ms: seq<Manifest>, key: GroupKey): seq<Contribution> {
    var m := OfUnit(ms, ComponentId(key.owner.component));
    if m.Some? then Group(m.value.pages, key) else []
  }

  /** A translation group lies inside the manifest of its component. */
  lemma {:induction false} GroupOfFlatten(ms: seq<Manifest>, key: GroupKey)
    requires DistinctUnitIds(ms) && Local(ms)
    ensures Group(Flatten(ms), key) == GroupIn(ms, key)
  {
    if ms != [] {
      var front, last := ms[..|ms| - 1], ms[|ms| - 1];
      assert ms == front + [last];
      GroupOfFlatten(front, key);
      GroupConcat(Flatten(front), last.pages, key);
      var id := ComponentId(key.owner.component);
      LastIsNew(ms);
      if last.unitId == id {
        OfUnitFinds(front, id);
        assert OfUnit(front, id).None?;
      } else {
        forall c | c in last.pages ensures c.owner.component != key.owner.component {
          assert last in ms;
        }
        NoGroup(last.pages, key);
      }
    }
  }

  lemma GroupsAgree(a: seq<Manifest>, b: seq<Manifest>, key: GroupKey)
    requires SameManifests(a, b) && Local(a)
    ensures Group(Flatten(a), key) == Group(Flatten(b), key)
  {
    GroupOfFlatten(a, key);
    GroupOfFlatten(b, key);
    SameManifestsSameUnits(a, b, ComponentId(key.owner.component));
  }

  lemma {:induction false} FlattenMembers(ms: seq<Manifest>, c: Contribution)
    ensures c in Flatten(ms) <==> exists m :: m in ms && c in m.pages
  {
    if ms != [] {
      var front, last := ms[..|ms| - 1], ms[|ms| - 1];
      assert ms == front + [last];
      FlattenMembers(front, c);
    }
  }

  lemma FlattenSameMembers(a: seq<Manifest>, b: seq<Manifest>)
    requires SameManifests(a, b)
    ensures forall c :: c in Flatten(a) <==> c in Flatten(b)
    ensures GroupKeys(Flatten(a)) == GroupKeys(Flatten(b))
    ensures Flatten(a) == [] <==> Flatten(b) == []
  {
    forall c ensures c in Flatten(a) <==> c in Flatten(b) {
      FlattenMembers(a, c);
      FlattenMembers(b, c);
    }
    if Flatten(a) != [] { assert Flatten(a)[0] in Flatten(b); }
    if Flatten(b) != [] { assert Flatten(b)[0] in Flatten(a); }
  }

  lemma {:induction false} FlattenPermutation(a: seq<Manifest>, b: seq<Manifest>)
    requires SameManifests(a, b)
    ensures multiset(Flatten(a)) == multiset(Flatten(b))
    decreases |a|
  {
    if a == [] {
      SameManifestsArePermutations(a, b);
      assert |b| == |multiset(b)|;
    } else {
      var front, last := a[..|a| - 1], a[|a| - 1];
      assert last in a;
      var j :| 0 <= j < |b| && b[j] == last;
      var rest := b[..j] + b[j + 1..];
      assert front == a[..|a| - 1] + a[|a|..];
      forall m ensures m in front <==> m in rest {
        RemovedOnce(a, |a| - 1, m);
        RemovedOnce(b, j, m);
      }
      RemovedOnce(b, j, last);
      RemovedOnce(a, |a| - 1, last);
      FlattenPermutation(front, rest);
      assert b == b[..j] + [last] + b[j + 1..];
      FlattenWithout(b[..j], last, b[j + 1..]);
    }
  }

  lemma FlattenWithout(lead: seq<Manifest>, m: Manifest, tail: seq<Manifest>)
    ensures multiset(Flatten(lead + [m] + tail)) == multiset(Flatten(lead + tail)) + multiset(m.pages)
  {
    FlattenConcat(lead, tail);
    FlattenConcat(lead + [m], tail);
    FlattenLast(lead, m);
    MiddleCounted(Flatten(lead), m.pages, Flatten(tail));
  }

  lemma FlattenLast(ms: seq<Manifest>, m: Manifest)
    ensures Flatten(ms + [m]) == Flatten(ms) + m.pages
  {
    assert (ms + [m])[..|ms|] == ms;
  }

  lemma MiddleCounted<T>(a: seq<T>, b: seq<T>, c: seq<T>)
    ensures multiset((a + b) + c) == multiset(a + c) + multiset(b)
  {
  }

  lemma RemovedOnce(ms: seq<Manifest>, i: nat, m: Manifest)
    requires DistinctUnitIds(ms) && i < |ms|
    ensures m in ms[..i] + ms[i + 1..] <==> m in ms && m != ms[i]
    ensures DistinctUnitIds(ms[..i] + ms[i + 1..])
  {
    assert ms == ms[..i] + [ms[i]] + ms[i + 1..];
  }

  lemma {:induction false} FlattenConcat(a: seq<Manifest>, b: seq<Manifest>)
    ensures Flatten(a + b) == Flatten(a) + Flatten(b)
  {
    if b == [] {
      assert a + b == a;
    } else {
      var front, last := b[..|b| - 1], b[|b| - 1];
      FlattenConcat(a, front);
      assert a + b == (a + front) + [last] && b == front + [last];
      FlattenLast(a + front, last);
      FlattenLast(front, last);
      Reassociate(Flatten(a), Flatten(front), last.pages);
    }
  }

  lemma Reassociate<T>(a: seq<T>, b: seq<T>, c: seq<T>)
    ensures (a + b) + c == a + (b + c)
  {
  }

  // Finalization

  lemma {:induction false} PageAtConcat(a: seq<Contribution>, b: seq<Contribution>, p: Path)
    ensures PageAt(a + b, p) == if PageAt(b, p).Some? then PageAt(b, p) else PageAt(a, p)
  {
    if b == [] {
      assert a + b == a;
    } else {
      PageAtConcat(a, b[..|b| - 1], p);
      assert (a + b)[..|a + b| - 1] == a + b[..|b| - 1];
    }
  }

  lemma {:induction false} PageAtFinds(pages: seq<Contribution>, p: Path)
    ensures PageAt(pages, p).Some? ==> PageAt(pages, p).value in pages && PageAt(pages, p).value.stagePath == p
    ensures PageAt(pages, p).None? ==> forall c :: c in pages ==> c.stagePath != p
  {
    if pages != [] {
      PageAtFinds(pages[..|pages| - 1], p);
      assert pages == pages[..|pages| - 1] + [pages[|pages| - 1]];
    }
  }

  /** The contribution at a path comes from the one manifest that has a page there. */
  lemma {:induction false} PageAtFlatten(ms: seq<Manifest>, m: Manifest, p: Path)
    requires DistinctUnitIds(ms) && m in ms
    requires forall n :: n in ms && HasPageAt(n, p) ==> n.unitId == m.unitId
    ensures PageAt(Flatten(ms), p) == PageAt(m.pages, p)
  {
    var front, last := ms[..|ms| - 1], ms[|ms| - 1];
    assert ms == front + [last];
    LastIsNew(ms);
    PageAtConcat(Flatten(front), last.pages, p);
    PageAtFinds(last.pages, p);
    if last == m {
      assert forall n :: n in front ==> !HasPageAt(n, p);
      NoPageAtFlatten(front, p);
    } else {
      assert m in front && !HasPageAt(last, p);
      PageAtFlatten(front, m, p);
    }
  }

  lemma {:induction false} NoPageAtFlatten(ms: seq<Manifest>, p: Path)
    requires forall n :: n in ms ==> !HasPageAt(n, p)
    ensures PageAt(Flatten(ms), p) == None
  {
    if ms != [] {
      var front, last := ms[..|ms| - 1], ms[|ms| - 1];
      assert ms == front + [last];
      NoPageAtFlatten(front, p);
      PageAtConcat(Flatten(front), last.pages, p);
      PageAtFinds(last.pages, p);
      assert !HasPageAt(last, p);
    }
  }

  lemma PageAtAgrees(a: seq<Manifest>, b: seq<Manifest>, p: Path)
    requires SameManifests(a, b) && PathsApart(a)
    ensures PageAt(Flatten(a), p) == PageAt(Flatten(b), p)
  {
    if m :| m in a && HasPageAt(m, p) {
      PageAtFlatten(a, m, p);
      PageAtFlatten(b, m, p);
    } else {
      NoPageAtFlatten(a, p);
      NoPageAtFlatten(b, p);
    }
  }

  /** The groups of one component. */
  function OwnKeys(keys: seq<GroupKey>, component: string): (r: seq<GroupKey>)
    ensures forall key :: key in r <==> key in keys && key.owner.component == component
  {
    if keys == [] then []
    else
      var last := keys[|keys| - 1];
      assert forall key :: key in keys <==> key in keys[..|keys| - 1] || key == last;
      OwnKeys(keys[..|keys| - 1], component) + if last.owner.component == component then [last] else []
  }

  ghost predicate NoPageOf(pages: seq<Contribution>, component: string) {
    forall c :: c in pages ==> c.owner.component != component
  }

  lemma OwnKeysAppend(keys: seq<GroupKey>, key: GroupKey, component: string)
    ensures OwnKeys(keys + [key], component) == OwnKeys(keys, component) + if key.owner.component == component then [key] else []
  {
    assert (keys + [key])[..|keys|] == keys;
  }

  /** What one more page adds to the groups of a component. */
  function Begun(own: seq<GroupKey>, c: Contribution, component: string): seq<GroupKey> {
    if Translatable(c) && c.owner.component == component && KeyOf(c) !in own then own + [KeyOf(c)] else own
  }

  lemma BeginStep(pages: seq<Contribution>, component: string)
    requires pages != []
    ensures OwnKeys(KeysInOrder(pages), component)
      == Begun(OwnKeys(KeysInOrder(pages[..|pages| - 1]), component), pages[|pages| - 1], component)
  {
    var keys, last := KeysInOrder(pages[..|pages| - 1]), pages[|pages| - 1];
    if Translatable(last) { OwnKeysAppend(keys, KeyOf(last), component); }
  }

  lemma {:induction false} ForeignPagesBeginNoGroup(a: seq<Contribution>, b: seq<Contribution>, component: string)
    requires NoPageOf(b, component)
    ensures OwnKeys(KeysInOrder(a + b), component) == OwnKeys(KeysInOrder(a), component)
  {
    if b == [] {
      assert a + b == a;
    } else {
      var front, last := b[..|b| - 1], b[|b| - 1];
      assert last in b;
      ForeignPagesBeginNoGroup(a, front, component);
      assert (a + b)[..|a + b| - 1] == a + front;
      BeginStep(a + b, component);
    }
  }

  lemma {:induction false} GroupsBeginAlike(a: seq<Contribution>, b: seq<Contribution>, component: string)
    requires NoPageOf(a, component)
    ensures OwnKeys(KeysInOrder(a + b), component) == OwnKeys(KeysInOrder(b), component)
  {
    if b == [] {
      assert [] + a == a;
      assert a + b == [] + a;
      ForeignPagesBeginNoGroup([], a, component);
    } else {
      GroupsBeginAlike(a, b[..|b| - 1], component);
      assert (a + b)[..|a + b| - 1] == a + b[..|b| - 1];
      BeginStep(a + b, component);
      BeginStep(b, component);
    }
  }

  function OwnKeysIn(ms: seq<Manifest>, component: string): seq<GroupKey> {
    var m := OfUnit(ms, ComponentId(component));
    if m.Some? then OwnKeys(KeysInOrder(m.value.pages), component) else []
  }

  /** The groups of a component begin in the order its own manifest gives. */
  lemma {:induction false} OwnKeysOfFlatten(ms: seq<Manifest>, component: string)
    requires DistinctUnitIds(ms) && Local(ms)
    ensures OwnKeys(KeysInOrder(Flatten(ms)), component) == OwnKeysIn(ms, component)
  {
    if ms != [] {
      var front, last := ms[..|ms| - 1], ms[|ms| - 1];
      assert ms == front + [last];
      LastIsNew(ms);
      OwnKeysOfFlatten(front, component);
      if last.unitId == ComponentId(component) {
        forall c | c in Flatten(front) ensures c.owner.component != component { FlattenMembers(front, c); }
        GroupsBeginAlike(Flatten(front), last.pages, component);
      } else {
        assert last in ms;
        ForeignPagesBeginNoGroup(Flatten(front), last.pages, component);
      }
    }
  }

  function FirstSome<T>(a: Option<T>, b: Option<T>): Option<T> { if a.Some? then a else b }

  lemma LinkStep(pages: seq<Contribution>, keys: seq<GroupKey>, key: GroupKey, id: PageId)
    ensures LastLinked(pages, keys + [key], id) == FirstSome(PageIn(Group(pages, key), id), LastLinked(pages, keys, id))
  {
    assert (keys + [key])[..|keys|] == keys;
  }

  lemma NoPageInForeignGroup(pages: seq<Contribution>, key: GroupKey, id: PageId)
    requires key.owner != id.owner
    ensures PageIn(Group(pages, key), id) == None
  {
    var c := PageIn(Group(pages, key), id);
    assert c.Some? ==> InGroup(c.value, key);
  }

  ghost predicate LinksAlike(pages: seq<Contribution>, keys: seq<GroupKey>, own: seq<GroupKey>, id: PageId) {
    LastLinked(pages, keys, id) == LastLinked(pages, own, id)
  }

  lemma {:induction false} OnlyOwnGroupsLink(pages: seq<Contribution>, keys: seq<GroupKey>, id: PageId)
    ensures LinksAlike(pages, keys, OwnKeys(keys, id.owner.component), id)
  {
    if keys != [] {
      var front, last := keys[..|keys| - 1], keys[|keys| - 1];
      OnlyOwnGroupsLink(pages, front, id);
      OwnLinkStep(pages, front, last, id);
      assert keys == front + [last];
    }
  }

  lemma OwnLinkStep(pages: seq<Contribution>, keys: seq<GroupKey>, key: GroupKey, id: PageId)
    requires LinksAlike(pages, keys, OwnKeys(keys, id.owner.component), id)
    ensures LinksAlike(pages, keys + [key], OwnKeys(keys + [key], id.owner.component), id)
  {
    var own := OwnKeys(keys, id.owner.component);
    LinkStep(pages, keys, key, id);
    OwnKeysAppend(keys, key, id.owner.component);
    if key.owner.component == id.owner.component {
      LinkStep(pages, own, key, id);
    } else {
      NoPageInForeignGroup(pages, key, id);
      assert own + [] == own;
    }
  }

  lemma {:induction false} EqualGroupsLinkAlike(a: seq<Contribution>, b: seq<Contribution>, keys: seq<GroupKey>, id: PageId)
    requires forall key :: Group(a, key) == Group(b, key)
    ensures LastLinked(a, keys, id) == LastLinked(b, keys, id)
  {
    if keys != [] { EqualGroupsLinkAlike(a, b, keys[..|keys| - 1], id); }
  }

  lemma TranslationsAgree(a: seq<Manifest>, b: seq<Manifest>, id: PageId)
    requires SameManifests(a, b) && Local(a)
    ensures TranslationsOf(Flatten(a), id) == TranslationsOf(Flatten(b), id)
  {
    forall key ensures Group(Flatten(a), key) == Group(Flatten(b), key) { GroupsAgree(a, b, key); }
    OwnKeysOfFlatten(a, id.owner.component);
    OwnKeysOfFlatten(b, id.owner.component);
    SameManifestsSameUnits(a, b, ComponentId(id.owner.component));
    OnlyOwnGroupsLink(Flatten(a), KeysInOrder(Flatten(a)), id);
    OnlyOwnGroupsLink(Flatten(b), KeysInOrder(Flatten(b)), id);
    EqualGroupsLinkAlike(Flatten(a), Flatten(b), OwnKeysIn(a, id.owner.component), id);
  }

  lemma BlocksAgree(summaries: map<string, string>, a: seq<Manifest>, b: seq<Manifest>, c: Contribution)
    requires SameManifests(a, b) && Local(a)
    ensures BlockOf(summaries, Flatten(a), c) == BlockOf(summaries, Flatten(b), c)
  {
    TranslationsAgree(a, b, IdOf(c));
  }

  /** Final front matter does not depend on the order of the manifests. */
  lemma FinalizationIgnoresOrder(t: Tree, summaries: map<string, string>, a: seq<Manifest>, b: seq<Manifest>)
    requires SameManifests(a, b) && Local(a) && PathsApart(a)
    ensures Finalized(t, summaries, Flatten(a), Flatten(a)) == Finalized(t, summaries, Flatten(b), Flatten(b))
  {
    forall p | p in t
      ensures FinalizeFile(t[p], p, summaries, Flatten(a), Flatten(a)) == FinalizeFile(t[p], p, summaries, Flatten(b), Flatten(b))
    {
      PageAtAgrees(a, b, p);
      var c := PageAt(Flatten(a), p);
      if c.Some? { BlocksAgree(summaries, a, b, c.value); }
    }
  }

  // Aggregates

  /** Equal stages up to the order in which the two manifest-order files list their entries. */
  ghost predicate SameUpToOrder(a: Tree, b: Tree) {
    && a.Keys == b.Keys
    && (forall p :: p in a && p != CONTENT_INDEX && p != UNIT_CONTRIBUTIONS ==> a[p] == b[p])
    && (CONTENT_INDEX in a ==> a[CONTENT_INDEX] == b[CONTENT_INDEX] || IndexesPermuted(a[CONTENT_INDEX], b[CONTENT_INDEX]))
    && (UNIT_CONTRIBUTIONS in a ==>
          a[UNIT_CONTRIBUTIONS] == b[UNIT_CONTRIBUTIONS] || ContributionsPermuted(a[UNIT_CONTRIBUTIONS], b[UNIT_CONTRIBUTIONS]))
  }

  ghost predicate IndexesPermuted(f: File, g: File) {
    f.ContentIndex? && g.ContentIndex? && multiset(f.entries) == multiset(g.entries)
  }

  ghost predicate ContributionsPermuted(f: File, g: File) {
    f.UnitContributions? && g.UnitContributions? && multiset(f.manifests) == multiset(g.manifests)
  }

  lemma SortedGroupsAgree(a: seq<Manifest>, b: seq<Manifest>)
    requires SameManifests(a, b) && Local(a)
    ensures SortedGroups(Flatten(a)) == SortedGroups(Flatten(b))
  {
    FlattenSameMembers(a, b);
    forall key | key in GroupKeys(Flatten(a))
      ensures SortedGroups(Flatten(a))[key] == SortedGroups(Flatten(b))[key]
    {
      GroupsAgree(a, b, key);
    }
  }

  /** Files no aggregate replaces. */
  predicate PlanFilesApart(run: Run) {
    forall p :: p in run.planFiles ==> p in SHARED_PATHS && p != TRANSLATIONS && p != CONTENT_INDEX
  }

  lemma SharedFilesAgree(run: Run, a: seq<Manifest>, b: seq<Manifest>)
    requires SameManifests(a, b) && Local(a) && PlanFilesApart(run)
    ensures var f, g := SharedFiles(run, Flatten(a)), SharedFiles(run, Flatten(b));
      f.Keys == g.Keys && (forall p :: p in f && p != CONTENT_INDEX ==> f[p] == g[p])
      && (CONTENT_INDEX in f ==> IndexesPermuted(f[CONTENT_INDEX], g[CONTENT_INDEX]))
  {
    FlattenSameMembers(a, b);
    SortedGroupsAgree(a, b);
    FlattenPermutation(a, b);
    assert TranslationFile(Flatten(a)) == TranslationFile(Flatten(b));
    var rest := run.planFiles + TranslationFile(Flatten(a));
    var i, j := IndexFile(Flatten(a)), IndexFile(Flatten(b));
    assert SharedFiles(run, Flatten(a)) == rest + i && SharedFiles(run, Flatten(b)) == rest + j;
    assert TRANSLATIONS != CONTENT_INDEX by { assert TRANSLATIONS[1][0] != CONTENT_INDEX[1][0]; }
    assert CONTENT_INDEX !in rest;
  }

  lemma CoordinatorFilesAgree(run: Run, a: seq<Manifest>, b: seq<Manifest>)
    requires SameManifests(a, b) && Local(a) && PlanFilesApart(run)
    ensures SameUpToOrder(CoordinatorFiles(run, a), CoordinatorFiles(run, b))
    ensures CoordinatorFiles(run, a) == CoordinatorFiles(run, b) <==> a == b
  {
    SharedFilesAgree(run, a, b);
    SameManifestsArePermutations(a, b);
    var f, g := SharedFiles(run, Flatten(a)), SharedFiles(run, Flatten(b));
    var m := MetadataFiles(run, f.Keys);
    OverlaySame(f, g, m, UnitContributions(a), UnitContributions(b));
  }

  lemma OverlaySame(f: Tree, g: Tree, m: Tree, x: File, y: File)
    requires f.Keys == g.Keys && forall p :: p in f && p != CONTENT_INDEX ==> f[p] == g[p]
    requires CONTENT_INDEX in f ==> IndexesPermuted(f[CONTENT_INDEX], g[CONTENT_INDEX])
    requires ContributionsPermuted(x, y)
    ensures SameUpToOrder(f + m + map[UNIT_CONTRIBUTIONS := x], g + m + map[UNIT_CONTRIBUTIONS := y])
    ensures f + m + map[UNIT_CONTRIBUTIONS := x] == g + m + map[UNIT_CONTRIBUTIONS := y] ==> x == y
  {
    var l, r := f + m + map[UNIT_CONTRIBUTIONS := x], g + m + map[UNIT_CONTRIBUTIONS := y];
    assert |UNIT_CONTRIBUTIONS| != |CONTENT_INDEX|;
    assert l[UNIT_CONTRIBUTIONS] == x && r[UNIT_CONTRIBUTIONS] == y;
  }
}
