/** Translation linkage validation (evaluation/localization.py). */
module Localization {
  import opened Options
  import opened Paths
  import opened Sorting

  datatype Page = Page(component: Option<string>, artifact: Option<string>, translationKey: Option<string>, path: string)

  datatype Policy = Policy(prefixAll: bool, locales: seq<string>)

  datatype Diagnostic = LocaleUnresolved | LinkageConflict | LocaleDuplicate | RouteInconsistent

  type Policies = map<string, Policy>

  /** The first path segment. */
  function FirstSegment(path: string): string { Split(path)[0] }

  /** What follows the first slash. */
  function SiblingSuffix(path: string): string { Join(Split(path)[1..]) }

  function LocalePrefix(path: string, locales: seq<string>): Option<string> {
    if FirstSegment(path) in locales then Some(FirstSegment(path)) else None
  }

  predicate Identified(p: Page) { p.component.Some? && p.artifact.Some? && p.translationKey.Some? }

  predicate ComponentsKnown(policies: Policies, pages: seq<Page>) {
    forall i :: 0 <= i < |pages| && Identified(pages[i]) ==> pages[i].component.value in policies
  }

  /** A translated page of a component that routes by locale prefix. */
  predicate Translated(policies: Policies, p: Page) {
    && Identified(p) && p.component.value in policies
    && policies[p.component.value].prefixAll && policies[p.component.value].locales != []
  }

  predicate UnderLocale(policies: Policies, p: Page)
    requires Translated(policies, p)
  {
    LocalePrefix(p.path, policies[p.component.value].locales).Some?
  }

  datatype ArtifactName = ArtifactName(component: string, artifact: string)

  datatype SiblingKey = SiblingKey(name: ArtifactName, suffix: string)

  datatype SetKey = SetKey(name: ArtifactName, translationKey: string)

  function NameOf(p: Page): ArtifactName
    requires Identified(p)
  {
    ArtifactName(p.component.value, p.artifact.value)
  }

  function SiblingOf(p: Page): SiblingKey
    requires Identified(p)
  {
    SiblingKey(NameOf(p), SiblingSuffix(p.path))
  }

  function SetOf(p: Page): SetKey
    requires Identified(p)
  {
    SetKey(NameOf(p), p.translationKey.value)
  }

  // What a clean page list is

  predicate Linked(policies: Policies, p: Page, q: Page) {
    Translated(policies, p) && Translated(policies, q) ==>
      && (SiblingOf(p) == SiblingOf(q) <==> SetOf(p) == SetOf(q))
      && (SetOf(p) == SetOf(q) ==> FirstSegment(p.path) != FirstSegment(q.path))
  }

  predicate Placed(policies: Policies, p: Page) { Translated(policies, p) ==> UnderLocale(policies, p) }

  /** Every translated page lies under a supported locale; per component and artifact,
      sibling suffixes and translation keys determine each other, and a translation
      set has one page for each locale. */
  predicate Clean(policies: Policies, pages: seq<Page>) {
    && (forall i :: 0 <= i < |pages| ==> Placed(policies, pages[i]))
    && (forall i, j :: 0 <= i < j < |pages| ==> Linked(policies, pages[i], pages[j]))
  }

  // The first pass

  /** The key seen for each sibling route, and the page of each locale in each set. */
  datatype Tables = Tables(keys: map<SiblingKey, string>, sets: map<SetKey, map<string, Page>>)

  function Members(tables: Tables, key: SetKey): map<string, Page> { if key in tables.sets then tables.sets[key] else map[] }

  datatype Step = Step(tables: Tables, diagnostic: Option<Diagnostic>)

  function AddPage(policies: Policies, tables: Tables, p: Page): Step {
    if !Translated(policies, p) then Step(tables, None)
    else if !UnderLocale(policies, p) then Step(tables, Some(LocaleUnresolved))
    else if SiblingOf(p) in tables.keys && tables.keys[SiblingOf(p)] != p.translationKey.value then Step(tables, Some(LinkageConflict))
    else
      var keys := tables.keys[SiblingOf(p) := p.translationKey.value];
      var members := Members(tables, SetOf(p));
      if FirstSegment(p.path) in members
      then Step(Tables(keys, tables.sets[SetOf(p) := members]), Some(LocaleDuplicate))
      else Step(Tables(keys, tables.sets[SetOf(p) := members[FirstSegment(p.path) := p]]), None)
  }

  /** What the first pass can tell about two pages. */
  predicate Separate(policies: Policies, p: Page, q: Page) {
    Translated(policies, p) && Translated(policies, q) ==>
      && (SiblingOf(p) == SiblingOf(q) ==> SetOf(p) == SetOf(q))
      && (SetOf(p) == SetOf(q) ==> FirstSegment(p.path) != FirstSegment(q.path))
  }

  predicate FirstPassClean(policies: Policies, pages: seq<Page>) {
    && (forall i :: 0 <= i < |pages| ==> Placed(policies, pages[i]))
    && (forall i, j :: 0 <= i < j < |pages| ==> Separate(policies, pages[i], pages[j]))
  }

  predicate Recorded(policies: Policies, tables: Tables, p: Page) {
    Translated(policies, p) ==>
      && SiblingOf(p) in tables.keys && tables.keys[SiblingOf(p)] == p.translationKey.value
      && FirstSegment(p.path) in Members(tables, SetOf(p)) && Members(tables, SetOf(p))[FirstSegment(p.path)] == p
  }

  predicate KeyFrom(policies: Policies, pages: seq<Page>, key: SiblingKey, translationKey: string) {
    exists i :: 0 <= i < |pages| && Translated(policies, pages[i])
      && SiblingOf(pages[i]) == key && pages[i].translationKey.value == translationKey
  }

  predicate MemberFrom(policies: Policies, pages: seq<Page>, key: SetKey, locale: string) {
    exists i :: 0 <= i < |pages| && Translated(policies, pages[i]) && SetOf(pages[i]) == key && FirstSegment(pages[i].path) == locale
  }

  /** The tables hold the translated pages and nothing else. */
  ghost predicate Represents(policies: Policies, pages: seq<Page>, tables: Tables) {
    && (forall i :: 0 <= i < |pages| ==> Recorded(policies, tables, pages[i]))
    && (forall key :: key in tables.keys ==> KeyFrom(policies, pages, key, tables.keys[key]))
    && (forall key, locale :: locale in Members(tables, key) ==> MemberFrom(policies, pages, key, locale))
  }

  lemma KeysExtend(policies: Policies, pages: seq<Page>, p: Page, key: SiblingKey, translationKey: string)
    ensures KeyFrom(policies, pages, key, translationKey) ==> KeyFrom(policies, pages + [p], key, translationKey)
    ensures Translated(policies, p) && SiblingOf(p) == key && p.translationKey.value == translationKey ==>
      KeyFrom(policies, pages + [p], key, translationKey)
  {
    assert (pages + [p])[|pages|] == p;
    if i :| 0 <= i < |pages| && Translated(policies, pages[i]) && SiblingOf(pages[i]) == key && pages[i].translationKey.value == translationKey {
      assert (pages + [p])[i] == pages[i];
    }
  }

  lemma MembersExtend(policies: Policies, pages: seq<Page>, p: Page, key: SetKey, locale: string)
    ensures MemberFrom(policies, pages, key, locale) ==> MemberFrom(policies, pages + [p], key, locale)
    ensures Translated(policies, p) && SetOf(p) == key && FirstSegment(p.path) == locale ==>
      MemberFrom(policies, pages + [p], key, locale)
  {
    assert (pages + [p])[|pages|] == p;
    if i :| 0 <= i < |pages| && Translated(policies, pages[i]) && SetOf(pages[i]) == key && FirstSegment(pages[i].path) == locale {
      assert (pages + [p])[i] == pages[i];
    }
  }

  lemma FirstPassPrefix(policies: Policies, pages: seq<Page>, p: Page)
    ensures FirstPassClean(policies, pages + [p]) <==>
      FirstPassClean(policies, pages) && Placed(policies, p) && forall i :: 0 <= i < |pages| ==> Separate(policies, pages[i], p)
  {
    var all := pages + [p];
    assert forall i :: 0 <= i < |pages| ==> all[i] == pages[i];
    assert all[|pages|] == p;
    if FirstPassClean(policies, all) {
      forall i | 0 <= i < |pages| ensures Separate(policies, pages[i], p) { assert Separate(policies, all[i], all[|pages|]); }
      forall i, j | 0 <= i < j < |pages| ensures Separate(policies, pages[i], pages[j]) { assert Separate(policies, all[i], all[j]); }
      forall i | 0 <= i < |pages| ensures Placed(policies, pages[i]) { assert Placed(policies, all[i]); }
    }
  }

  /** The page is reported exactly when it breaks cleanness. */
  lemma StepIsExact(policies: Policies, pages: seq<Page>, tables: Tables, p: Page)
    requires FirstPassClean(policies, pages) && Represents(policies, pages, tables)
    ensures AddPage(policies, tables, p).diagnostic.None? <==> FirstPassClean(policies, pages + [p])
  {
    FirstPassPrefix(policies, pages, p);
    if Translated(policies, p) && UnderLocale(policies, p) {
      var key, locale := SiblingOf(p), FirstSegment(p.path);
      if key in tables.keys && tables.keys[key] != p.translationKey.value {
        assert KeyFrom(policies, pages, key, tables.keys[key]);
        var i :| 0 <= i < |pages| && Translated(policies, pages[i]) && SiblingOf(pages[i]) == key && pages[i].translationKey.value == tables.keys[key];
        assert !Separate(policies, pages[i], p);
      } else if locale in Members(tables, SetOf(p)) {
        assert MemberFrom(policies, pages, SetOf(p), locale);
        var i :| 0 <= i < |pages| && Translated(policies, pages[i]) && SetOf(pages[i]) == SetOf(p) && FirstSegment(pages[i].path) == locale;
        assert !Separate(policies, pages[i], p);
      } else {
        forall i | 0 <= i < |pages| ensures Separate(policies, pages[i], p) { assert Recorded(policies, tables, pages[i]); }
      }
    }
  }

  lemma StepRecords(policies: Policies, tables: Tables, p: Page, q: Page)
    requires AddPage(policies, tables, p).diagnostic.None?
    ensures Recorded(policies, AddPage(policies, tables, p).tables, p)
    ensures Recorded(policies, tables, q) ==> Recorded(policies, AddPage(policies, tables, p).tables, q)
  {
  }

  lemma StepAdds(policies: Policies, tables: Tables, p: Page, sibling: SiblingKey, key: SetKey, locale: string)
    requires AddPage(policies, tables, p).diagnostic.None?
    ensures var after := AddPage(policies, tables, p).tables;
      && (sibling in after.keys ==>
            (sibling in tables.keys && after.keys[sibling] == tables.keys[sibling])
            || (Translated(policies, p) && SiblingOf(p) == sibling && after.keys[sibling] == p.translationKey.value))
      && (locale in Members(after, key) ==>
            locale in Members(tables, key) || (Translated(policies, p) && SetOf(p) == key && FirstSegment(p.path) == locale))
  {
  }

  lemma StepRepresents(policies: Policies, pages: seq<Page>, tables: Tables, p: Page)
    requires Represents(policies, pages, tables) && AddPage(policies, tables, p).diagnostic.None?
    ensures Represents(policies, pages + [p], AddPage(policies, tables, p).tables)
  {
    var after, all := AddPage(policies, tables, p).tables, pages + [p];
    forall i | 0 <= i < |all| ensures Recorded(policies, after, all[i]) {
      StepRecords(policies, tables, p, all[i]);
      if i < |pages| { assert Recorded(policies, tables, pages[i]); }
    }
    forall key | key in after.keys ensures KeyFrom(policies, all, key, after.keys[key]) {
      StepAdds(policies, tables, p, key, SetKey(key.name, ""), "");
      KeysExtend(policies, pages, p, key, after.keys[key]);
    }
    forall key, locale | locale in Members(after, key) ensures MemberFrom(policies, all, key, locale) {
      StepAdds(policies, tables, p, SiblingKey(key.name, ""), key, locale);
      MembersExtend(policies, pages, p, key, locale);
    }
  }

  ghost predicate PassState(policies: Policies, pages: seq<Page>, tables: Tables, reported: bool) {
    && (!reported <==> FirstPassClean(policies, pages))
    && (!reported ==> Represents(policies, pages, tables))
  }

  lemma PassStep(policies: Policies, pages: seq<Page>, tables: Tables, reported: bool, p: Page)
    requires PassState(policies, pages, tables, reported)
    ensures var step := AddPage(policies, tables, p);
      PassState(policies, pages + [p], step.tables, reported || step.diagnostic.Some?)
  {
    FirstPassPrefix(policies, pages, p);
    if !reported {
      StepIsExact(policies, pages, tables, p);
      if AddPage(policies, tables, p).diagnostic.None? { StepRepresents(policies, pages, tables, p); }
    }
  }

  method FirstPass(policies: Policies, pages: seq<Page>) returns (tables: Tables, diagnostics: seq<Diagnostic>)
    requires ComponentsKnown(policies, pages)
    ensures PassState(policies, pages, tables, diagnostics != [])
  {
    tables, diagnostics := Tables(map[], map[]), [];
    for i := 0 to |pages|
      invariant PassState(policies, pages[..i], tables, diagnostics != [])
    {
      assert pages[..i + 1] == pages[..i] + [pages[i]];
      PassStep(policies, pages[..i], tables, diagnostics != [], pages[i]);
      var step := AddPage(policies, tables, pages[i]);
      tables := step.tables;
      if step.diagnostic.Some? { diagnostics := diagnostics + [step.diagnostic.value]; }
    }
    assert pages[..|pages|] == pages;
  }

  // The second pass

  predicate Consistent(members: map<string, Page>) {
    forall l, m :: l in members && m in members ==> SiblingSuffix(members[l].path) == SiblingSuffix(members[m].path)
  }

  function Suffixes(members: map<string, Page>): set<string> { set l | l in members :: SiblingSuffix(members[l].path) }

  lemma OneSuffix(members: map<string, Page>)
    ensures |Suffixes(members)| <= 1 <==> Consistent(members)
  {
    var all := Suffixes(members);
    if |all| <= 1 {
      forall l, m | l in members && m in members ensures SiblingSuffix(members[l].path) == SiblingSuffix(members[m].path) {
        var x, y := SiblingSuffix(members[l].path), SiblingSuffix(members[m].path);
        assert x in all && y in all && |all - {x}| == |all| - 1;
        assert y in all - {x} || y == x;
      }
    } else {
      var x :| x in all;
      assert |all - {x}| >= 1;
      var y :| y in all - {x};
      assert x in all && y in all;
    }
  }

  method SecondPass(sets: map<SetKey, map<string, Page>>) returns (diagnostics: seq<Diagnostic>)
    ensures diagnostics == [] <==> forall key :: key in sets ==> Consistent(sets[key])
  {
    diagnostics := [];
    var left := sets.Keys;
    while left != {}
      invariant left <= sets.Keys
      invariant diagnostics == [] <==> forall key :: key in sets && key !in left ==> Consistent(sets[key])
      decreases left
    {
      var key :| key in left;
      left := left - {key};
      OneSuffix(sets[key]);
      if |Suffixes(sets[key])| <= 1 { continue; }
      diagnostics := diagnostics + [RouteInconsistent];
    }
  }

  ghost predicate AllConsistent(tables: Tables) { forall key :: key in tables.sets ==> Consistent(tables.sets[key]) }

  lemma ConsistentPagesLink(policies: Policies, tables: Tables, p: Page, q: Page)
    requires AllConsistent(tables) && Recorded(policies, tables, p) && Recorded(policies, tables, q) && Separate(policies, p, q)
    ensures Linked(policies, p, q)
  {
    if Translated(policies, p) && Translated(policies, q) && SetOf(p) == SetOf(q) {
      var members := Members(tables, SetOf(p));
      assert Consistent(members) && members[FirstSegment(p.path)] == p && members[FirstSegment(q.path)] == q;
    }
  }

  /** Consistent sets are what cleanness asks for beyond the first pass. */
  lemma ConsistentSetsAreClean(policies: Policies, pages: seq<Page>, tables: Tables)
    requires FirstPassClean(policies, pages) && Represents(policies, pages, tables)
    ensures AllConsistent(tables) <==> Clean(policies, pages)
  {
    if AllConsistent(tables) {
      forall i, j | 0 <= i < j < |pages| ensures Linked(policies, pages[i], pages[j]) {
        assert Separate(policies, pages[i], pages[j]) && Recorded(policies, tables, pages[i]) && Recorded(policies, tables, pages[j]);
        ConsistentPagesLink(policies, tables, pages[i], pages[j]);
      }
    }
    if Clean(policies, pages) {
      forall key | key in tables.sets ensures Consistent(tables.sets[key]) { CleanSetIsConsistent(policies, pages, tables, key); }
    }
  }

  lemma CleanSetIsConsistent(policies: Policies, pages: seq<Page>, tables: Tables, key: SetKey)
    requires Clean(policies, pages) && Represents(policies, pages, tables) && key in tables.sets
    ensures Consistent(tables.sets[key])
  {
    var members := tables.sets[key];
    forall l, m | l in members && m in members ensures SiblingSuffix(members[l].path) == SiblingSuffix(members[m].path) {
      assert MemberFrom(policies, pages, key, l) && MemberFrom(policies, pages, key, m);
      var i :| 0 <= i < |pages| && Translated(policies, pages[i]) && SetOf(pages[i]) == key && FirstSegment(pages[i].path) == l;
      var j :| 0 <= j < |pages| && Translated(policies, pages[j]) && SetOf(pages[j]) == key && FirstSegment(pages[j].path) == m;
      assert Recorded(policies, tables, pages[i]) && Recorded(policies, tables, pages[j]);
      if i < j { assert Linked(policies, pages[i], pages[j]); } else if j < i { assert Linked(policies, pages[j], pages[i]); }
    }
  }

  /** No translation diagnostic exactly when the page list is clean. */
  method ValidateLocalization(policies: Policies, pages: seq<Page>) returns (diagnostics: seq<Diagnostic>)
    requires ComponentsKnown(policies, pages)
    ensures diagnostics == [] <==> Clean(policies, pages)
  {
    var tables, first := FirstPass(policies, pages);
    var second := SecondPass(tables.sets);
    diagnostics := first + second;
    if first == [] { ConsistentSetsAreClean(policies, pages, tables); }
    CleanIsFirstPassClean(policies, pages);
  }

  lemma CleanIsFirstPassClean(policies: Policies, pages: seq<Page>)
    ensures Clean(policies, pages) ==> FirstPassClean(policies, pages)
  {
    if Clean(policies, pages) {
      forall i, j | 0 <= i < j < |pages| ensures Separate(policies, pages[i], pages[j]) { assert Linked(policies, pages[i], pages[j]); }
    }
  }

  // Order

  lemma {:induction false} FindTwo<T>(xs: seq<T>, x: T) returns (i: nat, j: nat)
    requires multiset(xs)[x] >= 2
    ensures i < j < |xs| && xs[i] == x && xs[j] == x
  {
    var front, last := xs[..|xs| - 1], xs[|xs| - 1];
    assert xs == front + [last];
    if last == x {
      assert x in multiset(front);
      i :| 0 <= i < |front| && front[i] == x;
      j := |front|;
    } else {
      i, j := FindTwo(front, x);
    }
  }

  lemma LinkedIsSymmetric(policies: Policies, p: Page, q: Page)
    ensures Linked(policies, p, q) ==> Linked(policies, q, p)
  {
  }

  lemma CleanListsSeparate(policies: Policies, pages: seq<Page>, p: Page, q: Page)
    requires Clean(policies, pages) && p in pages && q in pages && (p == q ==> multiset(pages)[p] >= 2)
    ensures Linked(policies, p, q)
  {
    var i, j: nat;
    if p == q {
      i, j := FindTwo(pages, p);
    } else {
      i :| 0 <= i < |pages| && pages[i] == p;
      j :| 0 <= j < |pages| && pages[j] == q;
    }
    if i < j { assert Linked(policies, pages[i], pages[j]); } else { assert Linked(policies, pages[j], pages[i]); }
    LinkedIsSymmetric(policies, q, p);
  }

  /** The verdict does not depend on the order of the pages. */
  lemma CleanIgnoresOrder(policies: Policies, pages: seq<Page>, shuffled: seq<Page>)
    requires multiset(pages) == multiset(shuffled)
    ensures Clean(policies, pages) ==> Clean(policies, shuffled)
  {
    if Clean(policies, pages) {
      forall x ensures x in shuffled <==> x in pages { assert x in multiset(shuffled) <==> x in multiset(pages); }
      forall i | 0 <= i < |shuffled| ensures Placed(policies, shuffled[i]) {
        assert shuffled[i] in pages;
        var k :| 0 <= k < |pages| && pages[k] == shuffled[i];
      }
      forall i, j | 0 <= i < j < |shuffled| ensures Linked(policies, shuffled[i], shuffled[j]) {
        assert shuffled[i] in pages && shuffled[j] in pages;
        if shuffled[i] == shuffled[j] { OccursTwice(shuffled, i, j); }
        CleanListsSeparate(policies, pages, shuffled[i], shuffled[j]);
      }
    }
  }

  // Two pages

  lemma LocalePath(locale: string, rest: string)
    requires NoSlash(locale)
    ensures FirstSegment(locale + "/" + rest) == locale && SiblingSuffix(locale + "/" + rest) == rest
  {
    SplitConcat(locale, rest);
    SplitName(locale);
    assert (Split(locale) + Split(rest))[1..] == Split(rest);
    JoinSplit(rest);
  }

  lemma {:induction false} JoinSplit(s: string)
    ensures Join(Split(s)) == s
  {
    if s != "" {
      JoinSplit(s[1..]);
      var rest := Split(s[1..]);
      assert s == [s[0]] + s[1..];
      if |rest| > 1 { assert Join(rest) == rest[0] + "/" + Join(rest[1..]); }
    }
  }

  /** Two translated pages under supported locales are clean exactly when, within one
      artifact, they have the same translation key if and only if their paths are equal
      below their locales, and then have different locales. */
  lemma TwoPages(policies: Policies, p: Page, q: Page, a: string, b: string, s: string, t: string)
    requires Translated(policies, p) && Translated(policies, q) && NoSlash(a) && NoSlash(b)
    requires p.path == a + "/" + s && q.path == b + "/" + t
    requires a in policies[p.component.value].locales && b in policies[q.component.value].locales
    ensures Clean(policies, [p, q]) <==>
      (p.component == q.component && p.artifact == q.artifact ==>
         (s == t <==> p.translationKey == q.translationKey) && (p.translationKey == q.translationKey ==> a != b))
  {
    LocalePath(a, s);
    LocalePath(b, t);
    assert Placed(policies, p) && Placed(policies, q);
    assert Clean(policies, [p, q]) <==> Linked(policies, [p, q][0], [p, q][1]);
  }

  /** A page of a component that routes by locale prefix is in the checks, if it has a
      component, an artifact and a translation key; then its first segment must be a locale. */
  lemma OnePage(policies: Policies, p: Page)
    requires p.component.Some? ==> p.component.value in policies
    ensures Clean(policies, [p]) <==>
      (p.component.Some? && p.artifact.Some? && p.translationKey.Some? && policies[p.component.value].prefixAll && policies[p.component.value].locales != []
       ==> FirstSegment(p.path) in policies[p.component.value].locales)
  {
    assert Clean(policies, [p]) <==> Placed(policies, [p][0]);
  }
}
