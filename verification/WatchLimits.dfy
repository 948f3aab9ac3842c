/** Bounded counting of watched filesystem entries (evaluation/limits.py). A
    filesystem maps each real directory to its entries; entries that are or link to
    directories name the directory they lead to. */
module WatchLimits {
  import opened Options
  import opened Paths

  datatype Entry = Leaf | Directory(target: Path)

  type Filesystem = map<Path, seq<Entry>>

  /** Directories lead to directories that can be listed. */
  ghost predicate Listable(fs: Filesystem) {
    forall d, i :: d in fs && 0 <= i < |fs[d]| && fs[d][i].Directory? ==> fs[d][i].target in fs
  }

  /** The walk below root follows this entry. */
  predicate Follows(root: Path, e: Entry) { e.Directory? && root <= e.target }

  ghost predicate Leads(fs: Filesystem, root: Path, d: Path, e: Path) {
    d in fs && exists i :: 0 <= i < |fs[d]| && fs[d][i] == Directory(e) && Follows(root, fs[d][i])
  }

  /** A walk below root that meets no directory seen before. */
  ghost predicate IsWalk(fs: Filesystem, root: Path, seen: set<Path>, walk: seq<Path>) {
    && walk != [] && walk[0] == root
    && (forall i :: 0 <= i < |walk| ==> walk[i] !in seen)
    && (forall i {:trigger Linked(fs, root, walk, i)} :: 0 <= i < |walk| - 1 ==> Linked(fs, root, walk, i))
  }

  ghost predicate Linked(fs: Filesystem, root: Path, walk: seq<Path>, i: nat)
    requires i < |walk| - 1
  {
    Leads(fs, root, walk[i], walk[i + 1])
  }

  ghost predicate Reachable(fs: Filesystem, root: Path, seen: set<Path>, d: Path) {
    exists walk :: IsWalk(fs, root, seen, walk) && walk[|walk| - 1] == d
  }

  /** The directories one root adds to those seen before. */
  ghost function NewDirectories(fs: Filesystem, root: Path, seen: set<Path>): set<Path> {
    set d | d in fs && Reachable(fs, root, seen, d)
  }

  ghost function EntryCount(fs: Filesystem, dirs: set<Path>): nat
    requires dirs <= fs.Keys
  {
    if dirs == {} then 0
    else
      var d :| d in dirs;
      |fs[d]| + EntryCount(fs, dirs - {d})
  }

  /** All entries below the roots, each real directory counted once. */
  ghost function TotalEntries(fs: Filesystem, roots: seq<Path>, seen: set<Path>): nat {
    if roots == [] then 0
    else
      var found := NewDirectories(fs, roots[0], seen);
      EntryCount(fs, found) + TotalEntries(fs, roots[1..], seen + found)
  }

  lemma {:induction false} EntryCountWithout(fs: Filesystem, dirs: set<Path>, d: Path)
    requires dirs <= fs.Keys && d in dirs
    ensures EntryCount(fs, dirs) == |fs[d]| + EntryCount(fs, dirs - {d})
  {
    var x :| x in dirs && EntryCount(fs, dirs) == |fs[x]| + EntryCount(fs, dirs - {x});
    if x != d {
      EntryCountWithout(fs, dirs - {x}, d);
      EntryCountWithout(fs, dirs - {d}, x);
      assert dirs - {x} - {d} == dirs - {d} - {x};
    }
  }

  lemma {:induction false} EntryCountMonotone(fs: Filesystem, some: set<Path>, all: set<Path>)
    requires some <= all <= fs.Keys
    ensures EntryCount(fs, some) <= EntryCount(fs, all)
    decreases some
  {
    if some != {} {
      var d :| d in some;
      EntryCountWithout(fs, some, d);
      EntryCountWithout(fs, all, d);
      EntryCountMonotone(fs, some - {d}, all - {d});
    }
  }

  // The walk

  /** What the stack walk has done: the directories visited, and where it still has to go. */
  ghost predicate WalkState(fs: Filesystem, root: Path, seen: set<Path>, visited: set<Path>, stack: seq<Path>) {
    && visited <= fs.Keys && visited !! seen
    && (forall d :: d in visited ==> Reachable(fs, root, seen, d))
    && (forall k :: 0 <= k < |stack| ==> stack[k] in fs && Wanted(fs, root, seen, stack[k]))
    && (root in seen || root in visited || root in stack)
    && (forall d, e :: d in visited && Leads(fs, root, d, e) ==> e in seen || e in visited || e in stack)
  }

  ghost predicate Wanted(fs: Filesystem, root: Path, seen: set<Path>, d: Path) {
    d in seen || Reachable(fs, root, seen, d)
  }

  lemma ReachableStep(fs: Filesystem, root: Path, seen: set<Path>, d: Path, e: Path)
    requires Reachable(fs, root, seen, d) && Leads(fs, root, d, e) && e !in seen
    ensures Reachable(fs, root, seen, e)
  {
    var walk :| IsWalk(fs, root, seen, walk) && walk[|walk| - 1] == d;
    var more := walk + [e];
    forall i | 0 <= i < |more| - 1 ensures Linked(fs, root, more, i) {
      if i < |walk| - 1 { assert Linked(fs, root, walk, i); }
    }
    assert IsWalk(fs, root, seen, more) && more[|more| - 1] == e;
  }

  lemma RootReachable(fs: Filesystem, root: Path, seen: set<Path>)
    requires root !in seen
    ensures Reachable(fs, root, seen, root)
  {
    assert IsWalk(fs, root, seen, [root]);
  }

  /** A walk stays among the visited directories once the stack is empty. */
  lemma {:induction false} WalkVisited(fs: Filesystem, root: Path, seen: set<Path>, visited: set<Path>, walk: seq<Path>, n: nat)
    requires WalkState(fs, root, seen, visited, []) && IsWalk(fs, root, seen, walk) && n < |walk|
    ensures walk[n] in visited
  {
    if n > 0 {
      WalkVisited(fs, root, seen, visited, walk, n - 1);
      assert Linked(fs, root, walk, n - 1);
    }
  }

  lemma WalkComplete(fs: Filesystem, root: Path, seen: set<Path>, visited: set<Path>)
    requires WalkState(fs, root, seen, visited, [])
    ensures visited == NewDirectories(fs, root, seen)
  {
    forall d | d in fs && Reachable(fs, root, seen, d) ensures d in visited {
      var walk :| IsWalk(fs, root, seen, walk) && walk[|walk| - 1] == d;
      WalkVisited(fs, root, seen, visited, walk, |walk| - 1);
    }
  }

  predicate Within(limit: Option<int>, count: int) { limit.Some? ==> count <= limit.value }

  /** The entries of one directory, up to one more than the limit allows. */
  method ScanDirectory(entries: seq<Entry>, root: Path, count: nat, limit: Option<int>, stack: seq<Path>)
    returns (counted: nat, more: seq<Path>, exceeded: bool)
    requires Within(limit, count)
    ensures exceeded <==> !Within(limit, count + |entries|)
    ensures !exceeded ==> counted == count + |entries| && stack <= more
    ensures !exceeded ==> forall k :: |stack| <= k < |more| ==> Directory(more[k]) in entries && Follows(root, Directory(more[k]))
    ensures !exceeded ==> forall i :: 0 <= i < |entries| && Follows(root, entries[i]) ==> entries[i].target in more
    ensures exceeded ==> limit.Some? && counted == limit.value + 1
  {
    counted, more, exceeded := count, stack, false;
    for i := 0 to |entries|
      invariant counted == count + i && Within(limit, counted) && stack <= more
      invariant forall k :: |stack| <= k < |more| ==> Directory(more[k]) in entries && Follows(root, Directory(more[k]))
      invariant forall j :: 0 <= j < i && Follows(root, entries[j]) ==> entries[j].target in more
    {
      counted := counted + 1;
      if limit.Some? && counted > limit.value { return counted, more, true; }
      if Follows(root, entries[i]) { more := more + [entries[i].target]; }
    }
  }

  lemma VisitNext(fs: Filesystem, root: Path, seen: set<Path>, visited: set<Path>, rest: seq<Path>, d: Path, more: seq<Path>)
    requires Listable(fs) && WalkState(fs, root, seen, visited, rest + [d]) && d !in seen && d !in visited
    requires d in fs && rest <= more
    requires forall k :: |rest| <= k < |more| ==> Directory(more[k]) in fs[d] && Follows(root, Directory(more[k]))
    requires forall i :: 0 <= i < |fs[d]| && Follows(root, fs[d][i]) ==> fs[d][i].target in more
    ensures WalkState(fs, root, seen, visited + {d}, more)
  {
    assert (rest + [d])[|rest|] == d;
    assert Reachable(fs, root, seen, d);
    forall k | 0 <= k < |more| ensures more[k] in fs && Wanted(fs, root, seen, more[k]) {
      if k < |rest| {
        assert more[k] == (rest + [d])[k];
      } else {
        var i :| 0 <= i < |fs[d]| && fs[d][i] == Directory(more[k]);
        assert Leads(fs, root, d, more[k]);
        if more[k] !in seen { ReachableStep(fs, root, seen, d, more[k]); }
      }
    }
    forall x | x in rest ensures x in more {
      var k :| 0 <= k < |rest| && rest[k] == x;
      assert more[k] == x;
    }
    forall x, e | x in visited + {d} && Leads(fs, root, x, e) ensures e in seen || e in visited + {d} || e in more {
      if x in visited { assert e in seen || e in visited || e in rest + [d]; }
    }
  }

  lemma SkipSeen(fs: Filesystem, root: Path, seen: set<Path>, visited: set<Path>, rest: seq<Path>, d: Path)
    requires WalkState(fs, root, seen, visited, rest + [d]) && (d in seen || d in visited)
    ensures WalkState(fs, root, seen, visited, rest)
  {
    assert forall k :: 0 <= k < |rest| ==> (rest + [d])[k] == rest[k];
  }

  /** An exceeded limit means that the whole count exceeds it too. */
  lemma ExcessIsReal(fs: Filesystem, root: Path, seen: set<Path>, visited: set<Path>, rest: seq<Path>, d: Path)
    requires WalkState(fs, root, seen, visited, rest + [d]) && d !in seen && d !in visited
    ensures d in fs && EntryCount(fs, visited) + |fs[d]| <= EntryCount(fs, NewDirectories(fs, root, seen))
  {
    assert (rest + [d])[|rest|] == d;
    assert visited + {d} <= NewDirectories(fs, root, seen);
    EntryCountWithout(fs, visited + {d}, d);
    assert visited + {d} - {d} == visited;
    EntryCountMonotone(fs, visited + {d}, NewDirectories(fs, root, seen));
  }

  lemma StartWalk(fs: Filesystem, root: Path, seen: set<Path>)
    requires root in fs
    ensures WalkState(fs, root, seen, {}, [root])
  {
    if root !in seen { RootReachable(fs, root, seen); }
  }

  /** Counts the entries below one root, at most one more than the limit, whatever
      links and cycles there are. */
  method CountEntriesBeneath(fs: Filesystem, root: Path, seen: set<Path>, limit: Option<int>)
    returns (count: nat, seenNow: set<Path>)
    requires Listable(fs) && root in fs && Within(limit, 0)
    ensures Within(limit, EntryCount(fs, NewDirectories(fs, root, seen))) ==>
      count == EntryCount(fs, NewDirectories(fs, root, seen)) && seenNow == seen + NewDirectories(fs, root, seen)
    ensures !Within(limit, EntryCount(fs, NewDirectories(fs, root, seen))) ==> count == limit.value + 1
  {
    var stack := [root];
    ghost var visited: set<Path> := {};
    count, seenNow := 0, seen;
    StartWalk(fs, root, seen);
    while stack != []
      invariant WalkState(fs, root, seen, visited, stack) && seenNow == seen + visited
      invariant count == EntryCount(fs, visited) && Within(limit, count)
      decreases fs.Keys - visited, |stack|
    {
      var rest, d := stack[..|stack| - 1], stack[|stack| - 1];
      assert stack == rest + [d];
      if d in seenNow {
        SkipSeen(fs, root, seen, visited, rest, d);
        stack := rest;
        continue;
      }
      ExcessIsReal(fs, root, seen, visited, rest, d);
      seenNow := seenNow + {d};
      var more, exceeded;
      count, more, exceeded := ScanDirectory(fs[d], root, count, limit, rest);
      if exceeded { return count, seenNow; }
      VisitNext(fs, root, seen, visited, rest, d, more);
      EntryCountWithout(fs, visited + {d}, d);
      assert visited + {d} - {d} == visited;
      visited, stack := visited + {d}, more;
    }
    WalkComplete(fs, root, seen, visited);
  }

  lemma TotalStep(fs: Filesystem, roots: seq<Path>, i: nat, seen: set<Path>)
    requires i < |roots|
    ensures TotalEntries(fs, roots[i..], seen)
      == EntryCount(fs, NewDirectories(fs, roots[i], seen)) + TotalEntries(fs, roots[i + 1..], seen + NewDirectories(fs, roots[i], seen))
  {
    assert roots[i..][0] == roots[i] && roots[i..][1..] == roots[i + 1..];
  }

  /** With a limit the count is the whole count, or one more than the limit if that
      is less; without one it is the whole count. */
  method CountWatchEntries(fs: Filesystem, roots: seq<Path>, limit: Option<nat>) returns (total: nat)
    requires Listable(fs) && forall i :: 0 <= i < |roots| ==> roots[i] in fs
    ensures total == if limit.Some? && TotalEntries(fs, roots, {}) > limit.value then limit.value + 1 else TotalEntries(fs, roots, {})
  {
    var seen: set<Path> := {};
    total := 0;
    assert roots[0..] == roots;
    for i := 0 to |roots|
      invariant total + TotalEntries(fs, roots[i..], seen) == TotalEntries(fs, roots, {})
      invariant limit.Some? ==> total <= limit.value
    {
      TotalStep(fs, roots, i, seen);
      var remaining := if limit.None? then None else Some(limit.value - total);
      var count;
      count, seen := CountEntriesBeneath(fs, roots[i], seen, remaining);
      total := total + count;
      if limit.Some? && total > limit.value { return; }
    }
    assert roots[|roots|..] == [];
  }

  // A tree of directories

  /** Every directory beneath the root is listed by the one above it. */
  ghost predicate IsTree(fs: Filesystem, root: Path) {
    && root in fs
    && forall d :: d in fs && root < d ==> d[..|d| - 1] in fs && Directory(d) in fs[d[..|d| - 1]]
  }

  lemma {:induction false} TreeReachable(fs: Filesystem, root: Path, d: Path)
    requires IsTree(fs, root) && d in fs && root <= d
    ensures Reachable(fs, root, {}, d)
    decreases |d|
  {
    if d == root {
      RootReachable(fs, root, {});
    } else {
      var parent := d[..|d| - 1];
      assert root < d && root <= parent;
      TreeReachable(fs, root, parent);
      assert Directory(d) in fs[parent] && Follows(root, Directory(d));
      assert Leads(fs, root, parent, d);
      ReachableStep(fs, root, {}, parent, d);
    }
  }

  lemma ReachableBeneath(fs: Filesystem, root: Path, seen: set<Path>, d: Path)
    requires Reachable(fs, root, seen, d)
    ensures root <= d
  {
    var walk :| IsWalk(fs, root, seen, walk) && walk[|walk| - 1] == d;
    if |walk| > 1 { assert Linked(fs, root, walk, |walk| - 2); }
  }

  /** Of a tree exactly the directories at and beneath the root are counted, however deep,
      and what links lead to elsewhere is not. */
  lemma TreeIsCounted(fs: Filesystem, root: Path)
    requires IsTree(fs, root)
    ensures NewDirectories(fs, root, {}) == set d | d in fs && root <= d
  {
    forall d | d in fs ensures Reachable(fs, root, {}, d) <==> root <= d {
      if root <= d { TreeReachable(fs, root, d); }
      if Reachable(fs, root, {}, d) { ReachableBeneath(fs, root, {}, d); }
    }
  }
}
