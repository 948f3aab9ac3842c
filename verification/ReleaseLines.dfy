/** Parents of release lines: the validator of authored lifecycles
    (models/authored/site_catalog.py) and the later check of the same chains
    (evaluation/reference_index.py). */
module ReleaseLines {
  import opened Options
  import opened RedirectLoops
  import opened Sorting

  // The later check

  datatype ReleaseLine = ReleaseLine(key: string, parent: Option<string>)

  /** The parent map; a repeated key keeps its last line. */
  function ParentEdges(lines: seq<ReleaseLine>): map<string, string> {
    if lines == [] then map[]
    else
      var earlier, line := ParentEdges(lines[..|lines| - 1]), lines[|lines| - 1];
      if line.parent.Some? then earlier[line.key := line.parent.value] else earlier - {line.key}
  }

  ghost predicate LeadsIntoCycle<N(!new)>(edges: map<N, N>, start: N) {
    exists k: nat :: Follow(edges, start, k).Some? && OnCycle(edges, Follow(edges, start, k).value)
  }

  /** True exactly when the parent walk from start runs into a cycle. */
  method HasLineCycle(start: string, lines: seq<ReleaseLine>) returns (r: bool)
    ensures r <==> LeadsIntoCycle(ParentEdges(lines), start)
  {
    var edges := ParentEdges(lines);
    var seen: set<string> := {};
    var current := Some(start);
    ghost var chain: seq<string> := [];
    while current.Some?
      invariant Walk(edges, start, {}, chain, current) && seen == Elements(chain)
      decreases Nodes(edges) + {start} - seen, current.Some?
    {
      if current.value in seen {
        WalkMeetsCycle(edges, start, chain, current.value);
        return true;
      }
      WalkExtends(edges, start, {}, chain, current.value);
      chain := chain + [current.value];
      seen := seen + {current.value};
      current := Next(edges, current.value);
    }
    EndingWalk(edges, start, {}, chain, current);
    forall k: nat | Follow(edges, start, k).Some? ensures !OnCycle(edges, Follow(edges, start, k).value) {
      ClosedSetsKeepWalks(edges, {} + Elements(chain), start, k);
    }
    r := false;
  }

  lemma WalkMeetsCycle<N(!new)>(edges: map<N, N>, start: N, chain: seq<N>, n: N)
    requires Walk(edges, start, {}, chain, Some(n)) && n in chain
    ensures LeadsIntoCycle(edges, start)
  {
    var at :| 0 <= at < |chain| && chain[at] == n;
    TailIsCycle(edges, chain, at);
    CycleNodesAreOnCycle(edges, chain[at..], 0);
    FollowLinked(edges, chain, 0, at);
  }

  // The validator

  datatype LifecycleError = DuplicateVersion | DuplicateLine | UnknownParent(parent: string) | ParentCycle

  function KeysOf(lines: seq<ReleaseLine>): (keys: seq<string>)
    ensures |keys| == |lines| && forall i :: 0 <= i < |lines| ==> keys[i] == lines[i].key
  {
    if lines == [] then [] else KeysOf(lines[..|lines| - 1]) + [lines[|lines| - 1].key]
  }

  predicate KnownParent(line: ReleaseLine, keys: seq<string>) { line.parent.Some? ==> line.parent.value in keys }

  predicate ParentsKnown(lines: seq<ReleaseLine>) {
    forall i :: 0 <= i < |lines| ==> KnownParent(lines[i], KeysOf(lines))
  }

  ghost predicate Acyclic(edges: map<string, string>) { forall n :: !OnCycle(edges, n) }

  /** Distinct versions, distinct keys, known parents and no cycle. */
  ghost predicate Accepted(releases: seq<string>, lines: seq<ReleaseLine>) {
    AllDistinct(releases) && AllDistinct(KeysOf(lines)) && ParentsKnown(lines) && Acyclic(ParentEdges(lines))
  }

  /** The first check that fails, in the order they are made. */
  ghost predicate FirstFailing(e: LifecycleError, releases: seq<string>, lines: seq<ReleaseLine>) {
    match e
    case DuplicateVersion => !AllDistinct(releases)
    case DuplicateLine => AllDistinct(releases) && !AllDistinct(KeysOf(lines))
    case UnknownParent(parent) =>
      AllDistinct(releases) && AllDistinct(KeysOf(lines)) && parent !in KeysOf(lines)
      && exists i :: 0 <= i < |lines| && lines[i].parent == Some(parent)
    case ParentCycle =>
      AllDistinct(releases) && AllDistinct(KeysOf(lines)) && ParentsKnown(lines) && !Acyclic(ParentEdges(lines))
  }

  method EnsureUnique(values: seq<string>) returns (ok: bool)
    ensures ok <==> AllDistinct(values)
  {
    var seen: set<string> := {};
    for i := 0 to |values|
      invariant seen == Elements(values[..i]) && AllDistinct(values[..i])
    {
      assert values[..i + 1] == values[..i] + [values[i]];
      if values[i] in seen {
        var j :| 0 <= j < i && values[..i][j] == values[i];
        assert values[j] == values[i];
        return false;
      }
      seen := seen + {values[i]};
    }
    assert values[..|values|] == values;
    ok := true;
  }

  lemma ParentStep(edges: map<string, string>, key: string)
    ensures key !in edges ==> !LeadsIntoCycle(edges, key)
    ensures key in edges ==> (LeadsIntoCycle(edges, key) <==> LeadsIntoCycle(edges, edges[key]))
  {
    if k: nat :| Follow(edges, key, k).Some? && OnCycle(edges, Follow(edges, key, k).value) {
      if k > 0 {
        assert Follow(edges, edges[key], k - 1) == Follow(edges, key, k);
      } else {
        var m: nat :| m > 0 && Follow(edges, key, m) == Some(key);
        assert Follow(edges, edges[key], m - 1) == Some(key);
      }
    }
    if key in edges && LeadsIntoCycle(edges, edges[key]) {
      var k: nat :| Follow(edges, edges[key], k).Some? && OnCycle(edges, Follow(edges, edges[key], k).value);
      assert Follow(edges, key, k + 1) == Follow(edges, edges[key], k);
    }
  }

  /** A line met again while it is being visited lies on a cycle. */
  lemma MetAgain(edges: map<string, string>, chain: seq<string>, key: string)
    requires AllDistinct(chain) && Linked(edges, chain + [key]) && key in chain
    ensures LeadsIntoCycle(edges, key)
  {
    var at :| 0 <= at < |chain| && chain[at] == key;
    forall i | 0 <= i < |chain| - 1 ensures Step(edges, chain, i) { assert Step(edges, chain + [key], i); }
    assert Step(edges, chain + [key], |chain| - 1);
    TailIsCycle(edges, chain, at);
    CycleNodesAreOnCycle(edges, chain[at..], 0);
    assert Follow(edges, key, 0) == Some(key);
  }

  lemma ChainGoesOn(edges: map<string, string>, chain: seq<string>, key: string)
    requires AllDistinct(chain) && Linked(edges, chain + [key]) && key !in chain && key in edges
    ensures AllDistinct(chain + [key]) && Linked(edges, chain + [key] + [edges[key]])
    ensures Elements(chain + [key]) == Elements(chain) + {key}
  {
    var longer := chain + [key] + [edges[key]];
    forall i | 0 <= i < |longer| - 1 ensures Step(edges, longer, i) {
      if i < |chain| { assert Step(edges, chain + [key], i); }
    }
  }

  class ParentVisitor {
    const parents: map<string, string>
    var visiting: set<string>
    var visited: set<string>

    constructor (edges: map<string, string>)
      ensures parents == edges && visiting == {} && visited == {}
    {
      parents, visiting, visited := edges, {}, {};
    }

    /** No visited line leads into a cycle. */
    ghost predicate Clear()
      reads this
    {
      forall key :: key in visited ==> !LeadsIntoCycle(parents, key)
    }

    /** Visits the parents of a line; chain holds the lines being visited, youngest first. */
    method Visit(key: string, ghost chain: seq<string>) returns (ok: bool)
      requires AllDistinct(chain) && Linked(parents, chain + [key]) && visiting == Elements(chain) && Clear()
      modifies this
      ensures ok <==> !LeadsIntoCycle(parents, key)
      ensures ok ==> Clear() && visiting == old(visiting) && visited >= old(visited) + {key}
      decreases parents.Keys - visiting
    {
      if key in visited { return true; }
      if key in visiting {
        MetAgain(parents, chain, key);
        return false;
      }
      ParentStep(parents, key);
      visiting := visiting + {key};
      if key in parents {
        ChainGoesOn(parents, chain, key);
        var parentOk := Visit(parents[key], chain + [key]);
        if !parentOk { return false; }
      }
      visiting := visiting - {key};
      visited := visited + {key};
      ok := true;
    }
  }

  lemma {:induction false} ParentEdgesOf(lines: seq<ReleaseLine>, n: string)
    ensures n in ParentEdges(lines) ==> n in KeysOf(lines)
  {
    if lines != [] {
      ParentEdgesOf(lines[..|lines| - 1], n);
      if n in KeysOf(lines[..|lines| - 1]) {
        var i :| 0 <= i < |lines| - 1 && KeysOf(lines[..|lines| - 1])[i] == n;
        assert KeysOf(lines)[i] == n;
      }
      assert KeysOf(lines)[|lines| - 1] == lines[|lines| - 1].key;
    }
  }

  /** A node on a cycle is the key of a line. */
  lemma CycleHasKey(lines: seq<ReleaseLine>, n: string)
    requires OnCycle(ParentEdges(lines), n)
    ensures exists i :: 0 <= i < |lines| && lines[i].key == n && LeadsIntoCycle(ParentEdges(lines), lines[i].key)
  {
    ParentEdgesOf(lines, n);
    var i :| 0 <= i < |lines| && KeysOf(lines)[i] == n;
    assert Follow(ParentEdges(lines), lines[i].key, 0) == Some(n);
  }

  lemma NoCycleFromKeys(lines: seq<ReleaseLine>)
    requires forall i :: 0 <= i < |lines| ==> !LeadsIntoCycle(ParentEdges(lines), lines[i].key)
    ensures Acyclic(ParentEdges(lines))
  {
    forall n ensures !OnCycle(ParentEdges(lines), n) {
      if OnCycle(ParentEdges(lines), n) { CycleHasKey(lines, n); }
    }
  }

  /** Accepts exactly the lists with distinct versions and keys, known parents and no
      cycle, and otherwise names the first check that fails. */
  method ValidateLifecycle(releases: seq<string>, lines: seq<ReleaseLine>) returns (r: Result<(), LifecycleError>)
    ensures r.Ok? <==> Accepted(releases, lines)
    ensures r.Err? ==> FirstFailing(r.error, releases, lines)
  {
    var versionsOk := EnsureUnique(releases);
    if !versionsOk { return Err(DuplicateVersion); }
    var keys := KeysOf(lines);
    var keysOk := EnsureUnique(keys);
    if !keysOk { return Err(DuplicateLine); }
    for i := 0 to |lines|
      invariant forall j :: 0 <= j < i ==> KnownParent(lines[j], keys)
    {
      if lines[i].parent.Some? && lines[i].parent.value !in keys { return Err(UnknownParent(lines[i].parent.value)); }
    }
    var visitor := new ParentVisitor(ParentEdges(lines));
    for i := 0 to |lines|
      invariant fresh(visitor) && visitor.parents == ParentEdges(lines) && visitor.visiting == {} && visitor.Clear()
      invariant forall j :: 0 <= j < i ==> lines[j].key in visitor.visited
    {
      var ok := visitor.Visit(keys[i], []);
      if !ok { return Err(ParentCycle); }
    }
    NoCycleFromKeys(lines);
    r := Ok(());
  }

  /** On a validated list the later check never reports a parent cycle. */
  lemma AcceptedLinesLeadIntoNoCycle(releases: seq<string>, lines: seq<ReleaseLine>, start: string)
    requires Accepted(releases, lines)
    ensures !LeadsIntoCycle(ParentEdges(lines), start)
  {
    if k: nat :| Follow(ParentEdges(lines), start, k).Some? && OnCycle(ParentEdges(lines), Follow(ParentEdges(lines), start, k).value) {
      assert !Acyclic(ParentEdges(lines));
    }
  }

  // Cycles among the lines themselves

  /** Lines each of which names the next as its parent, the last one the first. */
  ghost predicate IsParentCycle(lines: seq<ReleaseLine>, cycle: seq<nat>) {
    && cycle != [] && (forall k :: 0 <= k < |cycle| ==> cycle[k] < |lines|)
    && (forall k :: 0 <= k < |cycle| ==> NamesAsParent(lines, cycle[k], cycle[if k + 1 < |cycle| then k + 1 else 0]))
  }

  predicate NamesAsParent(lines: seq<ReleaseLine>, i: nat, j: nat) {
    i < |lines| && j < |lines| && lines[i].parent == Some(lines[j].key)
  }

  lemma {:induction false} ParentOf(lines: seq<ReleaseLine>, i: nat)
    requires AllDistinct(KeysOf(lines)) && i < |lines|
    ensures Next(ParentEdges(lines), lines[i].key) == lines[i].parent
  {
    var n := |lines| - 1;
    assert forall j, k :: 0 <= j < k < |lines| ==> KeysOf(lines)[j] != KeysOf(lines)[k];
    if i < n {
      assert AllDistinct(KeysOf(lines[..n]));
      ParentOf(lines[..n], i);
      assert KeysOf(lines)[i] != KeysOf(lines)[n];
    }
  }

  lemma {:induction false} AroundTheCycle(lines: seq<ReleaseLine>, cycle: seq<nat>, k: nat)
    requires AllDistinct(KeysOf(lines)) && IsParentCycle(lines, cycle) && k <= |cycle|
    ensures Follow(ParentEdges(lines), lines[cycle[0]].key, k) == Some(lines[cycle[if k < |cycle| then k else 0]].key)
  {
    if k > 0 {
      AroundTheCycle(lines, cycle, k - 1);
      FollowSplits(ParentEdges(lines), lines[cycle[0]].key, k - 1, 1);
      assert NamesAsParent(lines, cycle[k - 1], cycle[if k < |cycle| then k else 0]);
      ParentOf(lines, cycle[k - 1]);
    }
  }

  /** The lines a walk along the parents passes. */
  lemma {:induction false} WalkedLines(lines: seq<ReleaseLine>, n: string, m: nat) returns (walk: seq<nat>)
    requires AllDistinct(KeysOf(lines)) && Follow(ParentEdges(lines), n, m).Some?
    ensures |walk| == m && forall k :: 0 <= k < m ==> walk[k] < |lines|
    ensures m > 0 ==> lines[walk[0]].key == n && lines[walk[m - 1]].parent == Follow(ParentEdges(lines), n, m)
    ensures forall k :: 0 <= k < m - 1 ==> NamesAsParent(lines, walk[k], walk[k + 1])
    decreases m
  {
    walk := [];
    if m > 0 {
      var edges := ParentEdges(lines);
      ParentEdgesOf(lines, n);
      var i: nat :| i < |lines| && KeysOf(lines)[i] == n;
      ParentOf(lines, i);
      walk := WalkedLines(lines, edges[n], m - 1);
      walk := [i] + walk;
    }
  }

  /** With distinct keys the parents are free of cycles exactly when no lines name each
      other as parents in a circle. */
  lemma ParentCyclesAreExact(lines: seq<ReleaseLine>)
    requires AllDistinct(KeysOf(lines))
    ensures Acyclic(ParentEdges(lines)) <==> forall cycle :: !IsParentCycle(lines, cycle)
  {
    if cycle :| IsParentCycle(lines, cycle) {
      AroundTheCycle(lines, cycle, |cycle|);
      assert OnCycle(ParentEdges(lines), lines[cycle[0]].key);
    }
    if n :| OnCycle(ParentEdges(lines), n) {
      var m: nat :| m > 0 && Follow(ParentEdges(lines), n, m) == Some(n);
      var cycle := WalkedLines(lines, n, m);
      assert IsParentCycle(lines, cycle);
    }
  }

  /** In particular two lines that are each other's parents are rejected. */
  lemma MutualParentsAreRejected(releases: seq<string>, lines: seq<ReleaseLine>, i: nat, j: nat)
    requires NamesAsParent(lines, i, j) && NamesAsParent(lines, j, i)
    ensures !Accepted(releases, lines)
  {
    assert IsParentCycle(lines, [i, j]);
    if AllDistinct(KeysOf(lines)) { ParentCyclesAreExact(lines); }
  }
}
