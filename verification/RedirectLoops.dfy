/** Cycle search over maps from a node to its only successor, and the redirect loops
    it finds (evaluation/routes.py). */
module RedirectLoops {
  import opened Options
  import opened Sorting

  /** The node reached from n in k steps. */
  function Follow<N(==)>(edges: map<N, N>, n: N, k: nat): Option<N> {
    if k == 0 then Some(n)
    else if n in edges then Follow(edges, edges[n], k - 1)
    else None
  }

  ghost predicate OnCycle<N>(edges: map<N, N>, n: N) {
    exists k: nat :: k > 0 && Follow(edges, n, k) == Some(n)
  }

  ghost predicate Linked<N>(edges: map<N, N>, c: seq<N>) {
    forall i {:trigger Step(edges, c, i)} :: 0 <= i < |c| - 1 ==> Step(edges, c, i)
  }

  ghost predicate Step<N>(edges: map<N, N>, c: seq<N>, i: nat)
    requires i < |c| - 1
  {
    c[i] in edges && edges[c[i]] == c[i + 1]
  }

  /** c lists the nodes of one cycle once each, in walking order. */
  ghost predicate IsCycle<N>(edges: map<N, N>, c: seq<N>) {
    && c != [] && AllDistinct(c) && Linked(edges, c)
    && c[|c| - 1] in edges && edges[c[|c| - 1]] == c[0]
  }

  function Elements<N(==)>(c: seq<N>): set<N> { set n | n in c }

  ghost predicate Closed<N>(edges: map<N, N>, s: set<N>) {
    forall n {:trigger Stays(edges, s, n)} :: n in s ==> Stays(edges, s, n)
  }

  ghost predicate Stays<N>(edges: map<N, N>, s: set<N>, n: N) {
    n in edges ==> edges[n] in s
  }

  function Nodes<N(==)>(edges: map<N, N>): set<N> { edges.Keys + edges.Values }

  // Facts about walks

  lemma {:induction false} FollowSplits<N>(edges: map<N, N>, n: N, a: nat, b: nat)
    requires Follow(edges, n, a).Some?
    ensures Follow(edges, n, a + b) == Follow(edges, Follow(edges, n, a).value, b)
  {
    if a > 0 { FollowSplits(edges, edges[n], a - 1, b); }
  }

  lemma {:induction false} FollowLinked<N>(edges: map<N, N>, c: seq<N>, i: nat, k: nat)
    requires Linked(edges, c) && i + k < |c|
    ensures Follow(edges, c[i], k) == Some(c[i + k])
    decreases k
  {
    if k > 0 {
      assert Step(edges, c, i);
      FollowLinked(edges, c, i + 1, k - 1);
    }
  }

  lemma CycleNodesAreOnCycle<N>(edges: map<N, N>, c: seq<N>, i: nat)
    requires IsCycle(edges, c) && i < |c|
    ensures OnCycle(edges, c[i])
  {
    var last := |c| - 1;
    FollowLinked(edges, c, i, last - i);
    FollowSplits(edges, c[i], last - i, 1);
    assert Follow(edges, c[last], 1) == Follow(edges, c[0], 0);
    FollowSplits(edges, c[i], last - i + 1, i);
    FollowLinked(edges, c, 0, i);
    assert Follow(edges, c[i], |c|) == Some(c[i]);
  }

  lemma {:induction false} ClosedSetsKeepWalks<N>(edges: map<N, N>, s: set<N>, n: N, k: nat)
    requires Closed(edges, s) && n in s && Follow(edges, n, k).Some?
    ensures Follow(edges, n, k).value in s
  {
    if k > 0 {
      assert Stays(edges, s, n);
      ClosedSetsKeepWalks(edges, s, edges[n], k - 1);
    }
  }

  /** A walk that ends or enters a closed set it did not start in meets no cycle. */
  lemma {:induction false} WalkIntoClosedSet<N>(edges: map<N, N>, s: set<N>, chain: seq<N>)
    requires Closed(edges, s) && Linked(edges, chain) && AllDistinct(chain)
    requires forall n :: n in chain ==> n !in s
    requires chain != [] && chain[|chain| - 1] in edges ==> edges[chain[|chain| - 1]] in s
    ensures Closed(edges, s + Elements(chain))
    ensures forall n :: n in chain ==> !OnCycle(edges, n)
  {
    if chain == [] {
      assert s + Elements(chain) == s;
    } else {
      var rest := chain[1..];
      forall i | 0 <= i < |rest| - 1 ensures Step(edges, rest, i) { assert Step(edges, chain, i + 1); }
      WalkIntoClosedSet(edges, s, rest);
      var t := s + Elements(rest);
      assert chain == [chain[0]] + rest;
      assert s + Elements(chain) == t + {chain[0]};
      if |chain| > 1 { assert Step(edges, chain, 0) && chain[1] == rest[0]; }
      forall n | n in t + {chain[0]} ensures Stays(edges, t + {chain[0]}, n) {
        if n in t { assert Stays(edges, t, n); }
      }
      if OnCycle(edges, chain[0]) {
        var k: nat :| k > 0 && Follow(edges, chain[0], k) == Some(chain[0]);
        ClosedSetsKeepWalks(edges, t, edges[chain[0]], k - 1);
        assert false;
      }
    }
  }

  lemma CycleIsClosed<N>(edges: map<N, N>, c: seq<N>)
    requires IsCycle(edges, c)
    ensures Closed(edges, Elements(c))
  {
    forall n | n in Elements(c) ensures Stays(edges, Elements(c), n) {
      var i :| 0 <= i < |c| && c[i] == n;
      if i < |c| - 1 { assert Step(edges, c, i); }
    }
  }

  lemma ClosedUnion<N>(edges: map<N, N>, s: set<N>, t: set<N>)
    requires Closed(edges, s) && Closed(edges, t)
    ensures Closed(edges, s + t)
  {
    forall n | n in s + t ensures Stays(edges, s + t, n) {
      assert (n in s ==> Stays(edges, s, n)) && (n in t ==> Stays(edges, t, n));
    }
  }

  lemma OverlappingCyclesAgree<N>(edges: map<N, N>, c: seq<N>, d: seq<N>, n: N)
    requires IsCycle(edges, c) && IsCycle(edges, d) && n in c && n in d
    ensures Elements(c) <= Elements(d)
  {
    CycleIsClosed(edges, d);
    var i :| 0 <= i < |c| && c[i] == n;
    forall m | m in c ensures m in d {
      var j :| 0 <= j < |c| && c[j] == m;
      if i <= j {
        FollowLinked(edges, c, i, j - i);
        ClosedSetsKeepWalks(edges, Elements(d), n, j - i);
      } else {
        FollowLinked(edges, c, i, |c| - 1 - i);
        ClosedSetsKeepWalks(edges, Elements(d), n, |c| - 1 - i);
        assert Stays(edges, Elements(d), c[|c| - 1]);
        FollowLinked(edges, c, 0, j);
        ClosedSetsKeepWalks(edges, Elements(d), c[0], j);
      }
    }
  }

  // One walk

  function Next<N(==)>(edges: map<N, N>, n: N): Option<N> {
    if n in edges then Some(edges[n]) else None
  }

  /** chain is a walk from start over nodes no earlier walk met; node comes next. */
  ghost predicate Walk<N>(edges: map<N, N>, start: N, visited: set<N>, chain: seq<N>, node: Option<N>) {
    && AllDistinct(chain) && Linked(edges, chain)
    && Elements(chain) !! visited
    && Elements(chain) <= Nodes(edges) + {start}
    && (if chain == [] then node == Some(start)
        else chain[0] == start && node == Next(edges, chain[|chain| - 1]))
  }

  lemma WalkExtends<N>(edges: map<N, N>, start: N, visited: set<N>, chain: seq<N>, n: N)
    requires Walk(edges, start, visited, chain, Some(n)) && n !in visited && n !in chain
    ensures Walk(edges, start, visited, chain + [n], Next(edges, n))
    ensures Elements(chain + [n]) == Elements(chain) + {n} && n in Nodes(edges) + {start}
  {
    var longer := chain + [n];
    forall i | 0 <= i < |longer| - 1 ensures Step(edges, longer, i) {
      if i < |chain| - 1 { assert Step(edges, chain, i); }
    }
  }

  lemma {:induction false} DistinctSize<N>(c: seq<N>)
    requires AllDistinct(c)
    ensures |Elements(c)| == |c|
  {
    if c != [] {
      var front, last := c[..|c| - 1], c[|c| - 1];
      DistinctSize(front);
      assert c == front + [last];
      assert Elements(c) == Elements(front) + {last};
      assert last !in front;
    }
  }

  ghost predicate Indexes<N>(pathIndex: map<N, nat>, chain: seq<N>) {
    && pathIndex.Keys == Elements(chain)
    && forall n :: n in pathIndex ==> pathIndex[n] < |chain| && chain[pathIndex[n]] == n
  }

  /** The cycles a finished walk accounts for: its new nodes are on a cycle
      exactly when they are listed in cycle. */
  ghost predicate WalkVerdict<N(!new)>(edges: map<N, N>, visited: set<N>, visited': set<N>, cycle: Option<seq<N>>) {
    && (cycle.Some? ==> IsCycle(edges, cycle.value) && Elements(cycle.value) <= visited' - visited)
    && (Closed(edges, visited) ==>
          && Closed(edges, visited')
          && forall n :: n in visited' - visited ==> (OnCycle(edges, n) <==> cycle.Some? && n in cycle.value))
  }

  /** Walks from start until the walk ends, repeats, or meets an earlier walk.
      steps counts the nodes the walk appended to its chain. */
  method FindCycle<N(==, !new)>(start: N, edges: map<N, N>, visited: set<N>)
    returns (cycle: Option<seq<N>>, visited': set<N>, steps: nat)
    ensures visited <= visited' && start in visited' && visited' <= visited + Nodes(edges) + {start}
    ensures steps == |visited' - visited|
    ensures WalkVerdict(edges, visited, visited', cycle)
  {
    var pathIndex: map<N, nat> := map[];
    var chain: seq<N> := [];
    var node := Some(start);
    visited' := visited;
    while node.Some?
      invariant Walk(edges, start, visited, chain, node) && Indexes(pathIndex, chain)
      invariant visited' == visited + Elements(chain)
      decreases Nodes(edges) + {start} - visited', node.Some?
    {
      var n := node.value;
      if n in pathIndex {
        var at := pathIndex[n];
        cycle, steps := Some(chain[at..]), |chain|;
        RepeatingWalk(edges, start, visited, chain, at);
        return;
      }
      if n in visited' {
        EndingWalk(edges, start, visited, chain, node);
        return None, visited', |chain|;
      }
      WalkExtends(edges, start, visited, chain, n);
      visited' := visited' + {n};
      pathIndex := pathIndex[n := |chain|];
      chain := chain + [n];
      node := Next(edges, n);
    }
    EndingWalk(edges, start, visited, chain, node);
    cycle, steps := None, |chain|;
  }

  lemma EndingWalk<N(!new)>(edges: map<N, N>, start: N, visited: set<N>, chain: seq<N>, node: Option<N>)
    requires Walk(edges, start, visited, chain, node) && (node.Some? ==> node.value in visited)
    ensures start in visited + Elements(chain)
    ensures |chain| == |visited + Elements(chain) - visited|
    ensures WalkVerdict(edges, visited, visited + Elements(chain), None)
  {
    DistinctSize(chain);
    assert visited + Elements(chain) - visited == Elements(chain);
    if chain != [] { assert chain[0] in Elements(chain); }
    if Closed(edges, visited) { WalkIntoClosedSet(edges, visited, chain); }
  }

  lemma RepeatingWalk<N(!new)>(edges: map<N, N>, start: N, visited: set<N>, chain: seq<N>, at: nat)
    requires at < |chain| && Walk(edges, start, visited, chain, Some(chain[at]))
    ensures start in visited + Elements(chain)
    ensures |chain| == |visited + Elements(chain) - visited|
    ensures WalkVerdict(edges, visited, visited + Elements(chain), Some(chain[at..]))
  {
    DistinctSize(chain);
    assert visited + Elements(chain) - visited == Elements(chain);
    assert chain[0] in Elements(chain);
    var lead, c := chain[..at], chain[at..];
    assert chain == lead + c;
    TailIsCycle(edges, chain, at);
    if Closed(edges, visited) {
      CycleIsClosed(edges, c);
      ClosedUnion(edges, visited, Elements(c));
      LeadIsOffCycle(edges, visited + Elements(c), chain, at);
      assert visited + Elements(chain) == visited + Elements(c) + Elements(lead);
      forall n | n in c ensures OnCycle(edges, n) {
        var i :| 0 <= i < |c| && c[i] == n;
        CycleNodesAreOnCycle(edges, c, i);
      }
    }
  }

  lemma LeadIsOffCycle<N>(edges: map<N, N>, s: set<N>, chain: seq<N>, at: nat)
    requires at < |chain| && AllDistinct(chain) && Linked(edges, chain) && Closed(edges, s)
    requires Elements(chain[at..]) <= s && Elements(chain[..at]) !! s
    ensures Closed(edges, s + Elements(chain[..at]))
    ensures forall n :: n in chain[..at] ==> !OnCycle(edges, n)
  {
    var lead := chain[..at];
    if lead != [] {
      assert Step(edges, chain, at - 1);
      assert chain[at..][0] in Elements(chain[at..]);
    }
    forall n | n in lead ensures n !in s { assert n in Elements(lead); }
    forall i | 0 <= i < |lead| - 1 ensures Step(edges, lead, i) { assert Step(edges, chain, i); }
    WalkIntoClosedSet(edges, s, lead);
  }

  lemma TailIsCycle<N>(edges: map<N, N>, chain: seq<N>, at: nat)
    requires at < |chain| && AllDistinct(chain) && Linked(edges, chain)
    requires Next(edges, chain[|chain| - 1]) == Some(chain[at])
    ensures IsCycle(edges, chain[at..])
  {
    var c := chain[at..];
    forall i | 0 <= i < |c| - 1 ensures Step(edges, c, i) { assert Step(edges, chain, at + i); }
  }

  // Redirect loops

  datatype RouteKey = RouteKey(origin: string, path: string)

  ghost predicate ExactlyTheCycles<N(!new)>(edges: map<N, N>, found: seq<seq<N>>) {
    && CyclesWithin(edges, Nodes(edges), found)
    && (forall n :: OnCycle(edges, n) ==> exists i :: 0 <= i < |found| && n in found[i])
  }

  /** found holds pairwise disjoint cycles inside visited. */
  ghost predicate CyclesWithin<N(!new)>(edges: map<N, N>, visited: set<N>, found: seq<seq<N>>) {
    && (forall i :: 0 <= i < |found| ==> IsCycle(edges, found[i]) && Elements(found[i]) <= visited)
    && (forall i, j :: 0 <= i < j < |found| ==> Elements(found[i]) !! Elements(found[j]))
  }

  /** Every cycle inside visited is in found. */
  ghost predicate NoneMissed<N(!new)>(edges: map<N, N>, visited: set<N>, found: seq<seq<N>>) {
    forall n :: n in visited && OnCycle(edges, n) ==> exists i :: 0 <= i < |found| && n in found[i]
  }

  lemma WalkReported<N(!new)>(edges: map<N, N>, visited: set<N>, seen: set<N>, found: seq<seq<N>>, cycle: Option<seq<N>>)
    requires Closed(edges, visited) && visited <= seen && WalkVerdict(edges, visited, seen, cycle)
    requires CyclesWithin(edges, visited, found) && NoneMissed(edges, visited, found)
    ensures cycle.Some? ==> forall i :: 0 <= i < |found| ==> Elements(found[i]) != Elements(cycle.value)
    ensures var found' := if cycle.Some? then found + [cycle.value] else found;
      CyclesWithin(edges, seen, found') && NoneMissed(edges, seen, found')
  {
    var found' := if cycle.Some? then found + [cycle.value] else found;
    if cycle.Some? { assert cycle.value[0] in Elements(cycle.value); }
    forall n | n in seen && OnCycle(edges, n) ensures exists i :: 0 <= i < |found'| && n in found'[i] {
      if n in visited {
        var i :| 0 <= i < |found| && n in found[i];
        assert n in found'[i];
      } else {
        assert n in found'[|found|];
      }
    }
  }

  ghost function KeysOf<N>(found: seq<seq<N>>): set<set<N>> {
    if found == [] then {} else KeysOf(found[..|found| - 1]) + {Elements(found[|found| - 1])}
  }

  lemma KeysGrow<N>(found: seq<seq<N>>, c: seq<N>)
    ensures KeysOf(found + [c]) == KeysOf(found) + {Elements(c)}
  {
    assert (found + [c])[..|found|] == found;
  }

  lemma {:induction false} KeysAreFound<N>(found: seq<seq<N>>, key: set<N>)
    requires forall i :: 0 <= i < |found| ==> Elements(found[i]) != key
    ensures key !in KeysOf(found)
  {
    if found != [] { KeysAreFound(found[..|found| - 1], key); }
  }

  ghost predicate Labelled(found: seq<seq<RouteKey>>, labels: seq<seq<string>>, paths: map<RouteKey, string>) {
    |labels| == |found| && forall i :: 0 <= i < |found| ==> CycleLabels(found[i], paths) == Some(labels[i])
  }

  /** Records one cycle unless a diagnostic already names its node set, which
      never happens: no earlier cycle has the same nodes. */
  method ReportCycle(cycle: seq<RouteKey>, found: seq<seq<RouteKey>>, labels: seq<seq<string>>,
                     reported: set<set<RouteKey>>, ghost edges: map<RouteKey, RouteKey>, paths: map<RouteKey, string>)
    returns (found': seq<seq<RouteKey>>, labels': seq<seq<string>>, reported': set<set<RouteKey>>)
    requires Labelled(found, labels, paths) && reported == KeysOf(found)
    requires forall i :: 0 <= i < |found| ==> Elements(found[i]) != Elements(cycle)
    requires IsCycle(edges, cycle) && edges.Keys <= paths.Keys
    ensures found' == found + [cycle] && Labelled(found', labels', paths) && reported' == KeysOf(found')
  {
    var cycleKey := Elements(cycle);
    KeysAreFound(found, cycleKey);
    if cycleKey in reported {
      assert false;
    }
    forall n | n in cycle ensures n in edges {
      var i :| 0 <= i < |cycle| && cycle[i] == n;
      if i < |cycle| - 1 { assert Step(edges, cycle, i); }
    }
    LabelsExist(edges, cycle, paths);
    KeysGrow(found, cycle);
    reported' := reported + {cycleKey};
    labels' := labels + [CycleLabels(cycle, paths).value];
    found' := found + [cycle];
  }

  /** One turn of the diagnostic loop: walks from a node no earlier walk met. */
  method VisitNode(node: RouteKey, edges: map<RouteKey, RouteKey>, paths: map<RouteKey, string>,
                   visited: set<RouteKey>, found: seq<seq<RouteKey>>, labels: seq<seq<string>>, reported: set<set<RouteKey>>)
    returns (visited': set<RouteKey>, found': seq<seq<RouteKey>>, labels': seq<seq<string>>,
             reported': set<set<RouteKey>>, steps: nat)
    requires edges.Keys <= paths.Keys && node in edges && visited <= Nodes(edges) && Closed(edges, visited)
    requires CyclesWithin(edges, visited, found) && NoneMissed(edges, visited, found)
    requires Labelled(found, labels, paths) && reported == KeysOf(found)
    ensures visited <= visited' <= Nodes(edges) && node in visited' && Closed(edges, visited')
    ensures CyclesWithin(edges, visited', found') && NoneMissed(edges, visited', found')
    ensures Labelled(found', labels', paths) && reported' == KeysOf(found')
    ensures steps == |visited'| - |visited|
  {
    var cycle;
    cycle, visited', steps := FindCycle(node, edges, visited);
    WalkReported(edges, visited, visited', found, cycle);
    assert visited' == visited + (visited' - visited);
    found', labels', reported' := found, labels, reported;
    if cycle.Some? {
      found', labels', reported' := ReportCycle(cycle.value, found, labels, reported, edges, paths);
    }
  }

  /** The loop diagnostics, each as the labels of the cycle it names. order is
      the order in which the edges were recorded. */
  method ValidateRedirectLoops(order: seq<RouteKey>, edges: map<RouteKey, RouteKey>, paths: map<RouteKey, string>)
    returns (found: seq<seq<RouteKey>>, labels: seq<seq<string>>, steps: nat)
    requires Elements(order) == edges.Keys && edges.Keys <= paths.Keys
    ensures ExactlyTheCycles(edges, found)
    ensures Labelled(found, labels, paths)
    ensures steps <= |Nodes(edges)|
  {
    var visited: set<RouteKey> := {};
    var reported: set<set<RouteKey>> := {};
    found, labels, steps := [], [], 0;
    for at := 0 to |order|
      invariant Elements(order[..at]) <= visited
      invariant visited <= Nodes(edges) && Closed(edges, visited) && steps == |visited|
      invariant CyclesWithin(edges, visited, found) && NoneMissed(edges, visited, found)
      invariant Labelled(found, labels, paths) && reported == KeysOf(found)
    {
      PrefixGrows(order, at);
      if order[at] in visited { continue; }
      var walked;
      visited, found, labels, reported, walked :=
        VisitNode(order[at], edges, paths, visited, found, labels, reported);
      steps := steps + walked;
    }
    AllWalked(order, edges, visited, found);
  }

  lemma AllWalked<N(!new)>(order: seq<N>, edges: map<N, N>, visited: set<N>, found: seq<seq<N>>)
    requires CyclesWithin(edges, visited, found) && NoneMissed(edges, visited, found) && visited <= Nodes(edges)
    requires Elements(order) == edges.Keys && Elements(order[..|order|]) <= visited
    ensures ExactlyTheCycles(edges, found) && |visited| <= |Nodes(edges)|
  {
    assert order[..|order|] == order;
    SubsetSize(visited, Nodes(edges));
    forall n | OnCycle(edges, n) ensures n in visited {
      var k: nat :| k > 0 && Follow(edges, n, k) == Some(n);
    }
  }

  lemma PrefixGrows<N>(order: seq<N>, at: nat)
    requires at < |order|
    ensures Elements(order[..at + 1]) == Elements(order[..at]) + {order[at]}
    ensures order[at] in Elements(order)
  {
    assert order[..at + 1] == order[..at] + [order[at]];
  }

  /** The labels of a cycle; None stands for a failed route lookup. */
  function CycleLabels(cycle: seq<RouteKey>, paths: map<RouteKey, string>): (r: Option<seq<string>>)
    ensures r.Some? ==> |r.value| == |cycle|
    ensures r.Some? ==> forall i :: 0 <= i < |cycle| ==> cycle[i] in paths && r.value[i] == cycle[i].origin + ":" + paths[cycle[i]]
  {
    if cycle == [] then Some([])
    else
      var rest := CycleLabels(cycle[1..], paths);
      if cycle[0] in paths && rest.Some? then Some([cycle[0].origin + ":" + paths[cycle[0]]] + rest.value) else None
  }

  lemma {:induction false} LabelsExist(edges: map<RouteKey, RouteKey>, cycle: seq<RouteKey>, paths: map<RouteKey, string>)
    requires edges.Keys <= paths.Keys && forall i :: 0 <= i < |cycle| ==> cycle[i] in edges
    ensures CycleLabels(cycle, paths).Some?
  {
    if cycle != [] { LabelsExist(edges, cycle[1..], paths); }
  }

  lemma SubsetSize<N>(a: set<N>, b: set<N>)
    requires a <= b
    ensures |a| <= |b|
  {
    assert b == a + (b - a);
  }

  /** Every cycle of the graph is the node set of exactly one diagnostic. */
  lemma EachCycleReportedOnce<N(!new)>(edges: map<N, N>, found: seq<seq<N>>, c: seq<N>)
    requires ExactlyTheCycles(edges, found) && IsCycle(edges, c)
    ensures exists i :: 0 <= i < |found| && Elements(found[i]) == Elements(c)
    ensures forall i, j :: 0 <= i < j < |found| && Elements(found[i]) == Elements(c) ==> Elements(found[j]) != Elements(c)
  {
    CycleNodesAreOnCycle(edges, c, 0);
    var i :| 0 <= i < |found| && c[0] in found[i];
    OverlappingCyclesAgree(edges, c, found[i], c[0]);
    OverlappingCyclesAgree(edges, found[i], c, c[0]);
    assert c[0] in Elements(c);
  }
}
