/** Which translations a finished stage lists (staging/aggregates.py): in the front
    matter of its pages and in data/translations.json. */
module PageTranslations {
  import opened Options
  import opened Paths
  import opened Sorting
  import opened Staging
  import opened Manifests
  import opened IncrementalBuild

  // What a list of translations is

  /** A page with a public URL and a locale that carries the translation key of the group. */
  predicate Member(c: Contribution, key: GroupKey) {
    c.publicUrl.Some? && c.locale.Some? && c.owner == key.owner && c.translationKey == Some(key.translationKey)
  }

  function OfLocale(list: seq<Contribution>, locale: string): seq<Contribution> {
    if list == [] then []
    else
      var last := list[|list| - 1];
      OfLocale(list[..|list| - 1], locale) + if last.locale == Some(locale) then [last] else []
  }

  /** The members of a group in one locale, in the order of the build. */
  function PagesIn(pages: seq<Contribution>, key: GroupKey, locale: string): seq<Contribution> {
    if pages == [] then []
    else
      var last := pages[|pages| - 1];
      PagesIn(pages[..|pages| - 1], key, locale) + if Member(last, key) && last.locale == Some(locale) then [last] else []
  }

  ghost predicate ByLocale(list: seq<Contribution>) {
    forall i, j :: 0 <= i < j < |list| && list[i].locale.Some? && list[j].locale.Some? ==>
      StringLe(list[i].locale.value, list[j].locale.value)
  }

  /** The list has the members of the group in every locale but one: ordered by locale,
      and in the order of the build within a locale. */
  ghost predicate Lists(list: seq<Contribution>, pages: seq<Contribution>, key: GroupKey, except: Option<string>) {
    && ByLocale(list)
    && (forall d :: d in list <==> d in pages && Member(d, key) && d.locale != except)
    && (forall l :: Some(l) != except ==> OfLocale(list, l) == PagesIn(pages, key, l))
  }

  // Groups

  lemma {:induction false} GroupMembers(pages: seq<Contribution>, key: GroupKey, d: Contribution)
    ensures d in Group(pages, key) <==> d in pages && Member(d, key)
  {
    if pages != [] {
      GroupMembers(pages[..|pages| - 1], key, d);
      assert pages == pages[..|pages| - 1] + [pages[|pages| - 1]];
    }
  }

  lemma {:induction false} GroupOfLocale(pages: seq<Contribution>, key: GroupKey, l: string)
    ensures OfLocale(Group(pages, key), l) == PagesIn(pages, key, l)
  {
    if pages != [] {
      var front, last := pages[..|pages| - 1], pages[|pages| - 1];
      GroupOfLocale(front, key, l);
      assert InGroup(last, key) <==> Member(last, key);
      if InGroup(last, key) { OfLocaleAppend(Group(front, key), last, l); } else { assert Group(front, key) + [] == Group(front, key); }
    }
  }

  lemma OfLocaleAppend(list: seq<Contribution>, c: Contribution, l: string)
    ensures OfLocale(list + [c], l) == OfLocale(list, l) + if c.locale == Some(l) then [c] else []
  {
    assert (list + [c])[..|list|] == list;
  }

  lemma {:induction false} OfLocaleConcat(a: seq<Contribution>, b: seq<Contribution>, l: string)
    ensures OfLocale(a + b, l) == OfLocale(a, l) + OfLocale(b, l)
  {
    if b == [] {
      assert a + b == a;
    } else {
      var front, last := b[..|b| - 1], b[|b| - 1];
      OfLocaleConcat(a, front, l);
      assert a + b == (a + front) + [last] && b == front + [last];
      OfLocaleAppend(a + front, last, l);
      OfLocaleAppend(front, last, l);
      Reassociate(OfLocale(a, l), OfLocale(front, l), if last.locale == Some(l) then [last] else []);
    }
  }

  /** Pages of one locale keep their order while others are moved past them. */
  lemma {:induction false} InsertIsStable(x: Contribution, xs: seq<Contribution>, l: string)
    requires x.locale.Some? && forall y :: y in xs ==> y.locale.Some?
    ensures OfLocale(Insert(x, xs, LocaleLe), l) == OfLocale([x], l) + OfLocale(xs, l)
  {
    if xs == [] || LocaleLe(x, xs[0]) {
      OfLocaleConcat([x], xs, l);
    } else {
      StringLeTotal(x.locale.value, x.locale.value);
      InsertIsStable(x, xs[1..], l);
      OfLocaleConcat([xs[0]], Insert(x, xs[1..], LocaleLe), l);
      assert xs == [xs[0]] + xs[1..];
      OfLocaleConcat([xs[0]], xs[1..], l);
      PassOver(x, xs[0], OfLocale(xs[1..], l), l);
    }
  }

  lemma PassOver(x: Contribution, y: Contribution, rest: seq<Contribution>, l: string)
    requires x.locale != y.locale
    ensures OfLocale([y], l) + (OfLocale([x], l) + rest) == OfLocale([x], l) + (OfLocale([y], l) + rest)
  {
    OfLocaleAppend([], x, l);
    OfLocaleAppend([], y, l);
    assert [] + [x] == [x] && [] + [y] == [y];
  }

  lemma {:induction false} SortIsStable(xs: seq<Contribution>, l: string)
    requires forall y :: y in xs ==> y.locale.Some?
    ensures OfLocale(StableSort(xs, LocaleLe), l) == OfLocale(xs, l)
  {
    if xs != [] {
      SortIsStable(xs[1..], l);
      SortIsPermutation(xs[1..], LocaleLe);
      InsertIsStable(xs[0], StableSort(xs[1..], LocaleLe), l);
      assert xs == [xs[0]] + xs[1..];
      OfLocaleConcat([xs[0]], xs[1..], l);
    }
  }

  lemma LocaleOrder()
    ensures TotalPreorder(LocaleLe)
  {
    StringOrderIsTotalPreorder();
  }

  lemma GroupListed(pages: seq<Contribution>, key: GroupKey)
    ensures Lists(StableSort(Group(pages, key), LocaleLe), pages, key, None)
  {
    var group, list := Group(pages, key), StableSort(Group(pages, key), LocaleLe);
    LocaleOrder();
    SortIsSorted(group, LocaleLe);
    SortIsPermutation(group, LocaleLe);
    forall d ensures d in list <==> d in pages && Member(d, key) && d.locale != None { GroupMembers(pages, key, d); }
    forall l ensures OfLocale(list, l) == PagesIn(pages, key, l) {
      SortIsStable(group, l);
      GroupOfLocale(pages, key, l);
    }
    forall i, j | 0 <= i < j < |list| && list[i].locale.Some? && list[j].locale.Some?
      ensures StringLe(list[i].locale.value, list[j].locale.value)
    {
      assert LocaleLe(list[i], list[j]);
    }
  }

  lemma {:induction false} OtherMembers(list: seq<Contribution>, locale: Option<string>, d: Contribution)
    ensures d in OtherLocales(list, locale) <==> d in list && d.locale != locale
  {
    if list != [] {
      OtherMembers(list[..|list| - 1], locale, d);
      assert list == list[..|list| - 1] + [list[|list| - 1]];
    }
  }

  lemma {:induction false} OthersOfLocale(list: seq<Contribution>, locale: Option<string>, l: string)
    requires Some(l) != locale
    ensures OfLocale(OtherLocales(list, locale), l) == OfLocale(list, l)
  {
    if list != [] {
      var front, last := list[..|list| - 1], list[|list| - 1];
      OthersOfLocale(front, locale, l);
      if last.locale != locale {
        OfLocaleAppend(OtherLocales(front, locale), last, l);
      } else {
        assert OtherLocales(front, locale) + [] == OtherLocales(front, locale);
      }
    }
  }

  lemma {:induction false} OthersByLocale(list: seq<Contribution>, locale: Option<string>)
    requires ByLocale(list)
    ensures ByLocale(OtherLocales(list, locale))
  {
    if list != [] {
      var front, last := list[..|list| - 1], list[|list| - 1];
      OthersByLocale(front, locale);
      forall d | d in OtherLocales(front, locale) && d.locale.Some? && last.locale.Some?
        ensures StringLe(d.locale.value, last.locale.value)
      {
        OtherMembers(front, locale, d);
      }
    }
  }

  /** The links of a page: its group in every other locale. */
  lemma LinksListed(pages: seq<Contribution>, key: GroupKey, locale: string)
    ensures Lists(LinksOf(Group(pages, key), Some(locale)), pages, key, Some(locale))
  {
    var list := StableSort(Group(pages, key), LocaleLe);
    GroupListed(pages, key);
    OthersByLocale(list, Some(locale));
    forall d ensures d in OtherLocales(list, Some(locale)) <==> d in list && d.locale != Some(locale) {
      OtherMembers(list, Some(locale), d);
    }
    forall l | l != locale ensures OfLocale(OtherLocales(list, Some(locale)), l) == OfLocale(list, l) {
      OthersOfLocale(list, Some(locale), l);
    }
  }

  // Which group a page is in

  /** A page that may be linked: it has the identity and can be in a group. */
  predicate Linkable(c: Contribution, id: PageId) {
    c.publicUrl.Some? && c.locale.Some? && c.translationKey.Some? && c.owner == id.owner && c.stagePath == id.path
  }

  function Key(c: Contribution): GroupKey
    requires c.translationKey.Some?
  {
    GroupKey(c.owner, c.translationKey.value)
  }

  /** A page of group a comes before every page of group b. */
  ghost predicate BeginsBefore(pages: seq<Contribution>, a: GroupKey, b: GroupKey) {
    exists m :: 0 <= m < |pages| && Member(pages[m], a) && forall k :: 0 <= k <= m ==> !Member(pages[k], b)
  }

  ghost predicate Outranks(pages: seq<Contribution>, i: nat, j: nat)
    requires i < |pages| && j < |pages| && pages[i].translationKey.Some? && pages[j].translationKey.Some?
  {
    if Key(pages[i]) == Key(pages[j]) then j <= i else BeginsBefore(pages, Key(pages[j]), Key(pages[i]))
  }

  /** Of all pages with the identity, the one in the group that begins last, and the last one there. */
  ghost predicate StandsFor(pages: seq<Contribution>, i: int, id: PageId) {
    && 0 <= i < |pages| && Linkable(pages[i], id)
    && forall j :: 0 <= j < |pages| && Linkable(pages[j], id) ==> Outranks(pages, i, j)
  }

  lemma StandsAlone(pages: seq<Contribution>, i: nat, j: nat, id: PageId)
    requires StandsFor(pages, i, id) && StandsFor(pages, j, id)
    ensures i == j
  {
    assert Outranks(pages, i, j) && Outranks(pages, j, i);
  }

  lemma GroupAppend(pages: seq<Contribution>, key: GroupKey, id: PageId)
    requires pages != []
    ensures var front, last := pages[..|pages| - 1], pages[|pages| - 1];
      PageIn(Group(pages, key), id) == if Member(last, key) && IdOf(last) == id then Some(last) else PageIn(Group(front, key), id)
  {
    var front, last := pages[..|pages| - 1], pages[|pages| - 1];
    assert InGroup(last, key) <==> Member(last, key);
    if InGroup(last, key) {
      assert (Group(front, key) + [last])[..|Group(front, key)|] == Group(front, key);
    } else {
      assert Group(front, key) + [] == Group(front, key);
    }
  }

  /** The last page with the identity in the group, if i is not -1. */
  ghost predicate LastIn(pages: seq<Contribution>, key: GroupKey, id: PageId, i: int) {
    && -1 <= i < |pages| && (forall j :: i < j < |pages| ==> !(Member(pages[j], key) && IdOf(pages[j]) == id))
    && (i >= 0 ==> Member(pages[i], key) && IdOf(pages[i]) == id)
    && PageIn(Group(pages, key), id) == if i == -1 then None else Some(pages[i])
  }

  lemma LastInNext(pages: seq<Contribution>, key: GroupKey, id: PageId, i: int)
    requires pages != []
    requires var last := pages[|pages| - 1]; !(Member(last, key) && IdOf(last) == id) && LastIn(pages[..|pages| - 1], key, id, i)
    ensures LastIn(pages, key, id, i)
  {
    GroupAppend(pages, key, id);
    var front := pages[..|pages| - 1];
    forall j | i < j < |pages| ensures !(Member(pages[j], key) && IdOf(pages[j]) == id) {
      if j < |front| { assert pages[j] == front[j]; }
    }
  }

  lemma {:induction false} LastOfGroup(pages: seq<Contribution>, key: GroupKey, id: PageId) returns (i: int)
    ensures LastIn(pages, key, id, i)
  {
    if pages == [] { return -1; }
    i := |pages| - 1;
    if Member(pages[i], key) && IdOf(pages[i]) == id {
      GroupAppend(pages, key, id);
    } else {
      i := LastOfGroup(pages[..i], key, id);
      LastInNext(pages, key, id, i);
    }
  }

  ghost predicate InOrder(pages: seq<Contribution>, keys: seq<GroupKey>) {
    && (forall c :: c in pages && Translatable(c) ==> KeyOf(c) in keys)
    && (forall x, y :: 0 <= x < y < |keys| ==> BeginsBefore(pages, keys[x], keys[y]))
    && (forall x :: 0 <= x < |keys| ==> exists k :: 0 <= k < |pages| && Member(pages[k], keys[x]))
  }

  lemma {:induction false} KeysAreInOrder(pages: seq<Contribution>)
    ensures InOrder(pages, KeysInOrder(pages))
  {
    if pages != [] {
      KeysAreInOrder(pages[..|pages| - 1]);
      OneMorePage(pages, KeysInOrder(pages[..|pages| - 1]));
    }
  }

  lemma OneMorePage(pages: seq<Contribution>, keys: seq<GroupKey>)
    requires pages != [] && InOrder(pages[..|pages| - 1], keys)
    ensures var last := pages[|pages| - 1];
      InOrder(pages, if Translatable(last) && KeyOf(last) !in keys then keys + [KeyOf(last)] else keys)
  {
    var front, last := pages[..|pages| - 1], pages[|pages| - 1];
    assert pages == front + [last];
    forall x, y | 0 <= x < y < |keys| ensures BeginsBefore(pages, keys[x], keys[y]) { StillBefore(pages, keys[x], keys[y]); }
    if Translatable(last) && KeyOf(last) !in keys {
      assert Member(pages[|front|], KeyOf(last));
      forall x | 0 <= x < |keys| ensures BeginsBefore(pages, keys[x], KeyOf(last)) {
        var k :| 0 <= k < |front| && Member(front[k], keys[x]);
        forall n | 0 <= n <= k ensures !Member(pages[n], KeyOf(last)) { assert front[n] in front && pages[n] == front[n]; }
      }
    }
  }

  lemma StillBefore(pages: seq<Contribution>, a: GroupKey, b: GroupKey)
    requires pages != [] && BeginsBefore(pages[..|pages| - 1], a, b)
    ensures BeginsBefore(pages, a, b)
  {
    var front := pages[..|pages| - 1];
    var m :| 0 <= m < |front| && Member(front[m], a) && forall k :: 0 <= k <= m ==> !Member(front[k], b);
    assert Member(pages[m], a);
    forall k | 0 <= k <= m ensures !Member(pages[k], b) { assert pages[k] == front[k]; }
  }

  /** The page chosen for an identity: the last one in the last of the groups that have one. */
  ghost predicate Chosen(pages: seq<Contribution>, keys: seq<GroupKey>, id: PageId, i: int, x: int) {
    && 0 <= i < |pages| && 0 <= x < |keys| && Linkable(pages[i], id) && Key(pages[i]) == keys[x]
    && forall j :: 0 <= j < |pages| && Linkable(pages[j], id) ==>
         (Key(pages[j]) == keys[x] ==> j <= i) && Key(pages[j]) !in keys[x + 1..]
  }

  ghost predicate Choice(pages: seq<Contribution>, keys: seq<GroupKey>, id: PageId, c: Option<Contribution>) {
    if c.Some? then exists i, x :: Chosen(pages, keys, id, i, x) && pages[i] == c.value
    else forall j :: 0 <= j < |pages| && Linkable(pages[j], id) ==> Key(pages[j]) !in keys
  }

  lemma {:induction false} ChoosePage(pages: seq<Contribution>, keys: seq<GroupKey>, id: PageId)
    ensures Choice(pages, keys, id, LastLinked(pages, keys, id))
  {
    if keys != [] {
      var front, last := keys[..|keys| - 1], keys[|keys| - 1];
      ChoosePage(pages, front, id);
      ChooseStep(pages, front, last, id);
      assert keys == front + [last];
    }
  }

  lemma ChooseStep(pages: seq<Contribution>, front: seq<GroupKey>, last: GroupKey, id: PageId)
    requires Choice(pages, front, id, LastLinked(pages, front, id))
    ensures Choice(pages, front + [last], id, LastLinked(pages, front + [last], id))
  {
    var i := LastOfGroup(pages, last, id);
    LinkStep(pages, front, last, id);
    if i >= 0 {
      ChooseHere(pages, front, last, id, i);
    } else {
      ChooseEarlier(pages, front, last, id, LastLinked(pages, front, id));
    }
  }

  lemma ChooseHere(pages: seq<Contribution>, front: seq<GroupKey>, last: GroupKey, id: PageId, i: nat)
    requires i < |pages| && Member(pages[i], last) && IdOf(pages[i]) == id
    requires forall j :: i < j < |pages| ==> !(Member(pages[j], last) && IdOf(pages[j]) == id)
    ensures Choice(pages, front + [last], id, Some(pages[i]))
  {
    assert Key(pages[i]) == last;
    forall j | 0 <= j < |pages| && Linkable(pages[j], id) && Key(pages[j]) == last ensures j <= i {
      assert Member(pages[j], last) && IdOf(pages[j]) == id;
    }
    assert Chosen(pages, front + [last], id, i, |front|);
  }

  lemma ChooseEarlier(pages: seq<Contribution>, front: seq<GroupKey>, last: GroupKey, id: PageId, c: Option<Contribution>)
    requires Choice(pages, front, id, c)
    requires forall j :: 0 <= j < |pages| ==> !(Member(pages[j], last) && IdOf(pages[j]) == id)
    ensures Choice(pages, front + [last], id, c)
  {
    forall j | 0 <= j < |pages| && Linkable(pages[j], id) ensures Key(pages[j]) != last {
      assert IdOf(pages[j]) == id && Member(pages[j], Key(pages[j]));
    }
    if c.Some? {
      var i, x :| Chosen(pages, front, id, i, x) && pages[i] == c.value;
      assert (front + [last])[x + 1..] == front[x + 1..] + [last];
      assert Chosen(pages, front + [last], id, i, x);
    }
  }

  lemma ChosenStands(pages: seq<Contribution>, keys: seq<GroupKey>, id: PageId, i: nat, x: nat)
    requires InOrder(pages, keys) && Chosen(pages, keys, id, i, x)
    ensures StandsFor(pages, i, id)
  {
    forall y | x < y < |keys| ensures keys[y] in keys[x + 1..] { assert keys[x + 1..][y - x - 1] == keys[y]; }
    forall j | 0 <= j < |pages| && Linkable(pages[j], id) ensures Outranks(pages, i, j) {
      assert pages[j] in pages && Translatable(pages[j]) && KeyOf(pages[j]) == Key(pages[j]);
      var y :| 0 <= y < |keys| && keys[y] == Key(pages[j]);
    }
  }

  // The finished stage

  /** What a page lists: nothing if it is in no group, else its group in every other
      locale. Of several pages with its identity the one in the group that begins last counts. */
  ghost predicate TranslationsHold(list: seq<Contribution>, pages: seq<Contribution>, id: PageId) {
    && ((forall i :: 0 <= i < |pages| ==> !Linkable(pages[i], id)) ==> list == [])
    && (forall i :: StandsFor(pages, i, id) ==> Lists(list, pages, Key(pages[i]), pages[i].locale))
    && ((exists i :: 0 <= i < |pages| && Linkable(pages[i], id)) ==> exists i :: StandsFor(pages, i, id))
  }

  lemma PageTranslationsHold(pages: seq<Contribution>, id: PageId)
    ensures TranslationsHold(TranslationsOf(pages, id), pages, id)
  {
    var keys := KeysInOrder(pages);
    KeysAreInOrder(pages);
    ChoosePage(pages, keys, id);
    var c := LastLinked(pages, keys, id);
    if c.Some? {
      var i, x :| Chosen(pages, keys, id, i, x) && pages[i] == c.value;
      ChosenStands(pages, keys, id, i, x);
      ListedFor(pages, id, i);
    } else {
      NoneLinkable(pages, id);
    }
  }

  lemma ListedFor(pages: seq<Contribution>, id: PageId, i: nat)
    requires StandsFor(pages, i, id)
    ensures TranslationsHold(LinksOf(Group(pages, Key(pages[i])), pages[i].locale), pages, id)
  {
    LinksListed(pages, Key(pages[i]), pages[i].locale.value);
    forall j | StandsFor(pages, j, id) ensures j == i { StandsAlone(pages, i, j, id); }
  }

  lemma NoneLinkable(pages: seq<Contribution>, id: PageId)
    requires Choice(pages, KeysInOrder(pages), id, None) && InOrder(pages, KeysInOrder(pages))
    ensures TranslationsHold([], pages, id)
  {
    forall i | 0 <= i < |pages| ensures !Linkable(pages[i], id) { assert pages[i] in pages; }
  }

  /** The contribution at n is the last one for the page at p. */
  ghost predicate LastFor(pages: seq<Contribution>, n: nat, p: Path) {
    n < |pages| && pages[n].stagePath == p && forall k :: n < k < |pages| ==> pages[k].stagePath != p
  }

  /** Apart from its pipeline block, which has the summary of its component and its own
      facts, the page is as its unit wrote it. */
  ghost predicate FinalPage(f: File, written: File, summaries: map<string, string>, c: Contribution) {
    && f.Page? && written.Page? && f.body == written.body
    && f.meta.Keys == written.meta.Keys + {"pipeline"}
    && (forall k :: k in written.meta && k != "pipeline" ==> f.meta[k] == written.meta[k])
    && f.meta["pipeline"].Pipeline? && f.meta["pipeline"].page == c
    && f.meta["pipeline"].component.Some? == (c.owner.component in summaries)
    && (c.owner.component in summaries ==> f.meta["pipeline"].component == Some(summaries[c.owner.component]))
  }

  lemma BlockIsFinal(f: File, summaries: map<string, string>, pages: seq<Contribution>, c: Contribution)
    requires f.Page?
    ensures var g := SetPipeline(f, BlockOf(summaries, pages, c));
      FinalPage(g, f, summaries, c) && TranslationsHold(g.meta["pipeline"].translations, pages, PageId(c.owner, c.stagePath))
  {
    PageTranslationsHold(pages, IdOf(c));
  }

  lemma {:induction false} LastContribution(pages: seq<Contribution>, n: nat, p: Path)
    requires LastFor(pages, n, p)
    ensures PageAt(pages, p) == Some(pages[n])
  {
    if n < |pages| - 1 { LastContribution(pages[..|pages| - 1], n, p); }
  }

  lemma CandidateShows(request: Request, p: Path)
    requires PlanFilesApart(request.run) && p in Candidate(request) && !InCoordinatorArea(p)
    ensures var pages := Flatten(LoadedManifests(request));
      p in StageOf(request) && StageOf(request)[p] == FinalizeFile(Candidate(request)[p], p, request.run.summaries, pages, pages)
  {
    CoordinatorFilesClaimed(request.run, LoadedManifests(request), p);
  }

  ghost predicate StagedPage(pages: seq<Contribution>, n: nat) {
    n < |pages| && LastFor(pages, n, pages[n].stagePath) && !InCoordinatorArea(pages[n].stagePath)
  }

  /** Every page of a finished stage has the facts of its last contribution and lists
      its translations: the pages of the build with a public URL, the same component,
      artifact and translation key and another locale, ordered by locale. */
  lemma FinishedPage(request: Request, pages: seq<Contribution>, n: nat)
    requires Succeeds(request) && PlanFilesApart(request.run)
    requires pages == Flatten(LoadedManifests(request)) && StagedPage(pages, n)
    ensures var c, stage := pages[n], StageOf(request);
      && c.stagePath in stage && c.stagePath in Candidate(request)
      && FinalPage(stage[c.stagePath], Candidate(request)[c.stagePath], request.run.summaries, c)
      && TranslationsHold(stage[c.stagePath].meta["pipeline"].translations, pages, PageId(c.owner, c.stagePath))
  {
    var c := pages[n];
    assert IsPresent(Candidate(request), c);
    CandidateShows(request, c.stagePath);
    LastContribution(pages, n, c.stagePath);
    BlockIsFinal(Candidate(request)[c.stagePath], request.run.summaries, pages, c);
  }

  /** A file no contribution names is left as its unit wrote it. */
  lemma OtherFilesStay(request: Request, p: Path)
    requires PlanFilesApart(request.run) && p in Candidate(request) && !InCoordinatorArea(p)
    requires forall c :: c in Flatten(LoadedManifests(request)) ==> c.stagePath != p
    ensures p in StageOf(request) && StageOf(request)[p] == Candidate(request)[p]
  {
    CandidateShows(request, p);
    PageAtFinds(Flatten(LoadedManifests(request)), p);
  }

  /** The identity of a page is its own: no other contribution has it. */
  ghost predicate Alone(pages: seq<Contribution>, n: nat) {
    n < |pages| && forall k :: 0 <= k < |pages| && k != n ==> IdOf(pages[k]) != IdOf(pages[n])
  }

  /** For a page whose identity is its own, which pages it lists. */
  lemma ListedTranslation(pages: seq<Contribution>, n: nat, list: seq<Contribution>, d: Contribution)
    requires Alone(pages, n) && TranslationsHold(list, pages, IdOf(pages[n]))
    ensures var c := pages[n];
      d in list <==>
        && c.publicUrl.Some? && c.locale.Some? && c.translationKey.Some?
        && d in pages && d.publicUrl.Some? && d.owner.component == c.owner.component && d.owner.artifact == c.owner.artifact
        && d.translationKey == c.translationKey && d.locale.Some? && d.locale != c.locale
  {
    var c := pages[n];
    if Linkable(c, IdOf(c)) {
      var i :| StandsFor(pages, i, IdOf(c));
      assert i == n;
      assert d in list <==> d in pages && Member(d, Key(c)) && d.locale != c.locale;
    } else {
      forall i | 0 <= i < |pages| ensures !Linkable(pages[i], IdOf(c)) { assert i != n ==> IdOf(pages[i]) != IdOf(c); }
    }
  }

  /** A page in no group that repeats the identity of a translated one lists the
      translations of that one. */
  lemma RepeatedIdentityBorrows(c: Contribution, e: Contribution, d: Contribution, list: seq<Contribution>)
    requires Linkable(c, IdOf(c)) && Member(e, Key(c)) && e.locale != c.locale && IdOf(e) != IdOf(c)
    requires IdOf(d) == IdOf(c) && d.translationKey.None?
    requires TranslationsHold(list, [c, e, d], IdOf(d))
    ensures LastFor([c, e, d], 2, d.stagePath) && e in list
  {
    var pages := [c, e, d];
    assert pages[0] == c && pages[1] == e && pages[2] == d;
    assert StandsFor(pages, 0, IdOf(d));
    assert e in pages;
  }

  /** The translation sets of a finished stage: one for each key a page with a public
      URL and a locale carries, with its pages ordered by locale. */
  ghost predicate HoldsGroups(f: File, pages: seq<Contribution>) {
    && f.Translations?
    && (forall key :: key in f.groups <==> exists c :: c in pages && Member(c, key))
    && (forall key :: key in f.groups ==> Lists(f.groups[key], pages, key, None))
  }

  lemma GroupKeysHeld(pages: seq<Contribution>, key: GroupKey)
    ensures key in GroupKeys(pages) <==> exists c :: c in pages && Member(c, key)
  {
    if c :| c in pages && Member(c, key) { assert Translatable(c) && KeyOf(c) == key; }
  }

  lemma TranslationSets(pages: seq<Contribution>)
    ensures HoldsGroups(Translations(SortedGroups(pages)), pages)
  {
    forall key ensures key in GroupKeys(pages) <==> exists c :: c in pages && Member(c, key) { GroupKeysHeld(pages, key); }
    forall key | key in GroupKeys(pages) ensures Lists(SortedGroups(pages)[key], pages, key, None) { GroupListed(pages, key); }
  }

  lemma OverlayKeeps(a: Tree, b: Tree, c: Tree, p: Path)
    requires p !in b && p !in c
    ensures p in a + b + c <==> p in a
    ensures p in a ==> (a + b + c)[p] == a[p]
  {
  }

  lemma SharedTranslations(run: Run, pages: seq<Contribution>)
    requires PlanFilesApart(run)
    ensures TRANSLATIONS in SharedFiles(run, pages) <==> TRANSLATIONS in TranslationFile(pages)
    ensures TRANSLATIONS in SharedFiles(run, pages) ==> SharedFiles(run, pages)[TRANSLATIONS] == Translations(SortedGroups(pages))
  {
    assert TRANSLATIONS[1][0] != CONTENT_INDEX[1][0];
    assert TRANSLATIONS !in IndexFile(pages);
  }

  lemma NotMetadata()
    ensures !IsMetadata(TRANSLATIONS)
  {
    assert |UNIT_CONTRIBUTIONS| != |TRANSLATIONS| && |OUTPUT_OWNERSHIP| != |TRANSLATIONS|;
    assert |AGGREGATE_DEPENDENCIES| != |TRANSLATIONS| && |MANIFEST| != |TRANSLATIONS|;
  }

  lemma TranslationsWritten(run: Run, ms: seq<Manifest>)
    requires PlanFilesApart(run)
    ensures var files, pages := CoordinatorFiles(run, ms), Flatten(ms);
      && (TRANSLATIONS in files <==> GroupKeys(pages) != {})
      && (TRANSLATIONS in files ==> files[TRANSLATIONS] == Translations(SortedGroups(pages)))
  {
    var shared := SharedFiles(run, Flatten(ms));
    SharedTranslations(run, Flatten(ms));
    NotMetadata();
    OverlayKeeps(shared, MetadataFiles(run, shared.Keys), map[UNIT_CONTRIBUTIONS := UnitContributions(ms)], TRANSLATIONS);
  }

  predicate InSomeGroup(c: Contribution) { c.publicUrl.Some? && c.locale.Some? && c.translationKey.Some? }

  /** data/translations.json is there exactly when some page can be in a group. */
  lemma FinishedTranslations(request: Request, pages: seq<Contribution>)
    requires PlanFilesApart(request.run) && TRANSLATIONS !in Candidate(request) && pages == Flatten(LoadedManifests(request))
    ensures TRANSLATIONS in StageOf(request) <==> exists c :: c in pages && InSomeGroup(c)
    ensures TRANSLATIONS in StageOf(request) ==> HoldsGroups(StageOf(request)[TRANSLATIONS], pages)
  {
    TranslationsWritten(request.run, LoadedManifests(request));
    if c :| c in pages && InSomeGroup(c) { assert KeyOf(c) in GroupKeys(pages); }
    TranslationSets(pages);
  }
}
