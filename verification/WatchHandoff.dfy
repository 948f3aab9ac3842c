/** The watch loop and its event stream (commands/watch.py, commands/watch_events.py)
    with edits by the environment between any two steps: no edit is lost when the
    native watcher starts or is replaced. */
module WatchHandoff {
  import opened Options
  import opened Paths
  import opened DirtyPaths

  /** A scan that began after the first start edits; no dirty paths mean everything. */
  datatype Scan = Scan(start: nat, dirty: seq<Path>)

  /** Everything made so far: edits in order, the watched roots, the edits whose
      events wait to be read, and the scans. */
  datatype Moment = Moment(edits: seq<Path>, roots: seq<Path>, unread: seq<nat>, scans: seq<Scan>)

  predicate Scanned(i: nat, path: Path, scans: seq<Scan>) {
    exists k :: 0 <= k < |scans| && ScanSees(scans[k], i, path)
  }

  predicate ScanSees(s: Scan, i: nat, path: Path) { i < s.start && (s.dirty == [] || IsCovered(path, s.dirty)) }

  /** Each edit under the roots waits to be read, was made before a scan that looks
      at it, or is among the collected paths. */
  predicate Accounted(m: Moment, collected: seq<Path>) {
    forall i :: 0 <= i < |m.edits| && IsCovered(m.edits[i], m.roots) ==> EditAccounted(m, collected, i)
  }

  predicate EditAccounted(m: Moment, collected: seq<Path>, i: nat)
    requires i < |m.edits|
  {
    i in m.unread || Scanned(i, m.edits[i], m.scans) || IsCovered(m.edits[i], collected)
  }

  /** Queued events are of edits, and scans are listed in the order in which they
      began, the first of them a full one. */
  predicate Coherent(m: Moment) {
    && (forall k :: 0 <= k < |m.unread| ==> m.unread[k] < |m.edits|)
    && (forall k :: 0 <= k < |m.scans| ==> m.scans[k].start <= |m.edits|)
    && (forall j, k :: 0 <= j < k < |m.scans| ==> m.scans[j].start <= m.scans[k].start)
    && (m.scans != [] ==> m.scans[0].dirty == [])
  }

  /** One step of the schedule: edits made before it, the number of events read or
      the roots a scan derives, edits made before the step ends, a stop request. */
  datatype Turn = Turn(before: seq<Path>, take: nat, roots: seq<Path>, during: seq<Path>, stop: bool)

  function Watched(edits: seq<Path>, from: nat, roots: seq<Path>): seq<nat>
    requires from <= |edits|
    decreases |edits| - from
  {
    if from == |edits| then []
    else (if IsCovered(edits[from], roots) then [from] else []) + Watched(edits, from + 1, roots)
  }

  lemma {:induction false} WatchedEdits(edits: seq<Path>, from: nat, roots: seq<Path>, i: nat)
    requires from <= |edits|
    ensures i in Watched(edits, from, roots) <==> from <= i < |edits| && IsCovered(edits[i], roots)
    decreases |edits| - from
  {
    if from < |edits| { WatchedEdits(edits, from + 1, roots, i); }
  }

  class WatchLoop {
    var turns: seq<Turn>
    var edits: seq<Path>
    var roots: seq<Path>
    var registered: bool
    var unread: seq<nat>
    var scans: seq<Scan>
    var stop: bool
    /** The moments at which the loop waited for a first change. */
    ghost var waits: seq<Moment>

    function Now(): Moment
      reads this
    {
      Moment(edits, roots, unread, scans)
    }

    constructor (schedule: seq<Turn>, initialRoots: seq<Path>)
      ensures turns == schedule && edits == [] && unread == [] && scans == [] && waits == []
      ensures roots == initialRoots && !registered && !stop
    {
      turns, edits, roots, registered, unread, scans, stop, waits := schedule, [], initialRoots, false, [], [], false, [];
    }

    /** The environment edits files; a registered watcher queues what it watches. */
    method Edit(more: seq<Path>)
      requires Coherent(Now())
      modifies this`edits, this`unread
      ensures edits == old(edits) + more && Coherent(Now())
      ensures forall collected :: registered && old(Accounted(Now(), collected)) ==> Accounted(Now(), collected)
    {
      var from := |edits|;
      edits := edits + more;
      if registered { unread := unread + Watched(edits, from, roots); }
      forall i: nat ensures i in Watched(edits, from, roots) <==> from <= i < |edits| && IsCovered(edits[i], roots) {
        WatchedEdits(edits, from, roots, i);
      }
      assert forall k :: 0 <= k < |Watched(edits, from, roots)| ==> Watched(edits, from, roots)[k] in Watched(edits, from, roots);
      if registered {
        forall collected | old(Accounted(Now(), collected)) ensures Accounted(Now(), collected) {
          forall i | 0 <= i < |edits| && IsCovered(edits[i], roots) ensures EditAccounted(Now(), collected, i) {
            if i < from { assert old(EditAccounted(Now(), collected, i)); }
          }
        }
      }
    }

    /** Reads the events of some unread edits. */
    method ReadEvents(take: nat) returns (batch: seq<Path>)
      requires Coherent(Now())
      modifies this`unread
      ensures Coherent(Now())
      ensures forall collected :: old(Accounted(Now(), collected)) ==> Accounted(Now(), collected + batch)
    {
      var taken := if take < |unread| then take else |unread|;
      ghost var m := Now();
      batch := PathsOf(edits, unread[..taken]);
      unread := unread[taken..];
      ReadKeepsCoherent(m, taken);
      forall collected | Accounted(m, collected) ensures Accounted(Now(), collected + batch) {
        ReadKeepsAccount(m, taken, collected);
      }
    }

    /** Advances the native watcher: registers it on first use, then yields the
        events of some unread edits, none on a timeout, and nothing after a stop. */
    method NextChanges() returns (batch: Option<seq<Path>>)
      requires Coherent(Now())
      modifies this
      ensures Coherent(Now()) && roots == old(roots) && scans == old(scans) && waits == old(waits)
      ensures |turns| <= old(|turns|) && (batch.Some? ==> registered && |turns| < old(|turns|))
      ensures batch.Some? ==> forall collected :: old(registered) && old(Accounted(Now(), collected)) ==>
                Accounted(Now(), collected + batch.value)
    {
      if turns == [] { return None; }
      var turn := turns[0];
      turns := turns[1..];
      Edit(turn.before);
      registered := true;
      Edit(turn.during);
      if turn.stop {
        stop := true;
        return None;
      }
      var paths := ReadEvents(turn.take);
      batch := Some(paths);
    }

    /** One coalesced set of changed paths, or None after a stop. */
    method CollectDirtyPaths(waitForFirst: bool) returns (paths: Option<seq<Path>>)
      requires Coherent(Now()) && (waitForFirst ==> registered && Accounted(Now(), []) && scans != [])
      requires AllAccounted(waits)
      modifies this
      ensures Coherent(Now()) && roots == old(roots) && scans == old(scans) && AllAccounted(waits)
      ensures |turns| <= old(|turns|) && (paths.Some? ==> registered && |turns| < old(|turns|))
      ensures paths.Some? && old(registered) && old(Accounted(Now(), [])) ==> Accounted(Now(), paths.value)
      ensures paths.Some? && waitForFirst ==> paths.value != []
      ensures old(waits) <= waits && (if waitForFirst && !old(stop) then |waits| > |old(waits)| else waits == old(waits))
      ensures |waits| > |old(waits)| ==> waits[|old(waits)|] == old(Now())
    {
      if stop { return None; }
      ghost var counted := registered && Accounted(Now(), []);
      var dirty: seq<Path> := [];
      while true
        invariant Coherent(Now()) && roots == old(roots) && scans == old(scans) && AllAccounted(waits)
        invariant |turns| <= old(|turns|)
        invariant waitForFirst ==> counted
        invariant counted ==> registered && Accounted(Now(), dirty)
        invariant Waited(old(waits), old(Now()), waits, waitForFirst) || (Now() == old(Now()) && waits == old(waits) && dirty == [] && !stop)
        decreases |turns|
      {
        if stop { return None; }
        if waitForFirst && dirty == [] { waits := waits + [Now()]; }
        var batch := NextChanges();
        if batch.None? { return None; }
        if batch.value == [] {
          assert dirty + batch.value == dirty;
          if dirty != [] {
            var kept := CoalesceDirtyPaths(dirty);
            assert dirty[0] in dirty;
            CoalescingKeepsAccount(Now(), dirty, kept);
            return Some(kept);
          }
          if !waitForFirst || stop { return if stop then None else Some([]); }
          continue;
        }
        dirty := dirty + batch.value;
      }
    }

    /** Advances the watcher until it is registered; what it reads is discarded. */
    method Prime() returns (ok: bool)
      requires Coherent(Now()) && AllAccounted(waits)
      modifies this
      ensures Coherent(Now()) && roots == old(roots) && scans == old(scans) && AllAccounted(waits)
      ensures |turns| <= old(|turns|) && (ok ==> registered && |turns| < old(|turns|))
    {
      var paths := CollectDirtyPaths(false);
      ok := paths.Some?;
    }

    method ReplaceWatchRoots(newRoots: seq<Path>) returns (ok: bool)
      requires Coherent(Now()) && AllAccounted(waits) && newRoots != roots
      modifies this
      ensures Coherent(Now()) && roots == newRoots && scans == old(scans) && AllAccounted(waits)
      ensures |turns| <= old(|turns|) && (ok ==> registered && |turns| < old(|turns|))
    {
      unread, registered, roots := [], false, newRoots;
      ok := Prime();
    }

    /** Scans everything, or what the dirty paths touch, and derives the roots to watch. */
    method RunCycle(dirty: seq<Path>) returns (newRoots: seq<Path>)
      requires Coherent(Now()) && (scans == [] ==> dirty == [])
      modifies this
      ensures Coherent(Now()) && roots == old(roots) && registered == old(registered) && waits == old(waits)
      ensures |turns| <= old(|turns|)
      ensures |scans| == |old(scans)| + 1 && scans[..|old(scans)|] == old(scans)
      ensures var scan := scans[|old(scans)|]; scan.dirty == dirty && |old(edits)| <= scan.start <= |edits|
      ensures registered && (dirty == [] || old(Accounted(Now(), dirty))) ==> Accounted(Now(), [])
    {
      var turn := if turns == [] then Turn([], 0, roots, [], false) else turns[0];
      turns := if turns == [] then [] else turns[1..];
      Edit(turn.before);
      ghost var m := Now();
      ScanIsLast(m, dirty);
      scans := scans + [Scan(|edits|, dirty)];
      if dirty == [] || Accounted(m, dirty) { ScanAccounts(m, dirty); }
      Edit(turn.during);
      if turn.stop { stop := true; }
      newRoots := turn.roots;
    }

    /** Adopts changed roots, with a full cycle after each handoff. */
    method ReconcileWatchRoots(derived: seq<Path>) returns (ok: bool)
      requires Coherent(Now()) && AllAccounted(waits) && registered && Accounted(Now(), []) && scans != []
      modifies this
      ensures Coherent(Now()) && AllAccounted(waits) && |turns| <= old(|turns|) && scans != []
      ensures ok ==> registered && Accounted(Now(), [])
    {
      var newRoots := derived;
      while newRoots != roots
        invariant Coherent(Now()) && AllAccounted(waits) && |turns| <= old(|turns|) && scans != []
        invariant registered && Accounted(Now(), [])
        decreases |turns|
      {
        var primed := ReplaceWatchRoots(newRoots);
        if !primed { return false; }
        newRoots := RunCycle([]);
      }
      ok := true;
    }

    /** Full cycles after watcher registration until the roots are stable. */
    method ReconcileInitialCycle() returns (ok: bool)
      requires Coherent(Now()) && AllAccounted(waits) && registered
      modifies this
      ensures Coherent(Now()) && AllAccounted(waits)
      ensures ok ==> registered && Accounted(Now(), []) && scans != []
    {
      while true
        invariant Coherent(Now()) && AllAccounted(waits) && registered
        decreases |turns|
      {
        var newRoots := RunCycle([]);
        if newRoots == roots { return true; }
        var primed := ReplaceWatchRoots(newRoots);
        if !primed { return false; }
      }
    }

    /** Cycles for collected paths and for the edits made meanwhile, until none is left. */
    method FollowUp(collected: seq<Path>) returns (ok: bool)
      requires Coherent(Now()) && AllAccounted(waits) && registered && Accounted(Now(), collected) && scans != []
      modifies this
      ensures Coherent(Now()) && AllAccounted(waits) && |turns| <= old(|turns|) && scans != []
      ensures ok ==> registered && Accounted(Now(), [])
    {
      var pending := collected;
      while true
        invariant Coherent(Now()) && AllAccounted(waits) && |turns| <= old(|turns|) && scans != []
        invariant registered && Accounted(Now(), pending)
        decreases |turns|
      {
        var derived := RunCycle(pending);
        var reconciled := ReconcileWatchRoots(derived);
        if !reconciled || stop { return false; }
        var more := CollectDirtyPaths(false);
        if more.None? { return false; }
        if more.value == [] { return true; }
        pending := more.value;
      }
    }

    /** The whole session. Whenever it waits for a first change, every edit under the
        watched roots is still queued or was made before a scan that looked at it. */
    method RunWatch()
      requires Coherent(Now()) && waits == [] && scans == [] && !registered
      modifies this
      ensures AllAccounted(waits)
    {
      var derived := RunCycle([]);
      roots := derived;
      var primed := Prime();
      if !primed { return; }
      var stable := ReconcileInitialCycle();
      if !stable || stop { return; }
      while true
        invariant Coherent(Now()) && AllAccounted(waits) && registered && Accounted(Now(), []) && scans != []
        decreases |turns|
      {
        var collected := CollectDirtyPaths(true);
        if collected.None? { return; }
        var settled := FollowUp(collected.value);
        if !settled { return; }
      }
    }
  }

  /** A wait was recorded from the first moment on, and only when waiting. */
  ghost predicate Waited(before: seq<Moment>, first: Moment, waits: seq<Moment>, waiting: bool) {
    before <= waits && (if waiting then |waits| > |before| && waits[|before|] == first else waits == before)
  }

  ghost predicate AllAccounted(waits: seq<Moment>) {
    forall k :: 0 <= k < |waits| ==> Accounted(waits[k], []) && Coherent(waits[k]) && waits[k].scans != []
  }

  function PathsOf(edits: seq<Path>, read: seq<nat>): (paths: seq<Path>)
    requires forall k :: 0 <= k < |read| ==> read[k] < |edits|
    ensures |paths| == |read| && forall k :: 0 <= k < |read| ==> paths[k] == edits[read[k]]
  {
    if read == [] then [] else [edits[read[0]]] + PathsOf(edits, read[1..])
  }

  lemma ReadKeepsCoherent(m: Moment, taken: nat)
    requires Coherent(m) && taken <= |m.unread|
    ensures Coherent(m.(unread := m.unread[taken..]))
  {
  }

  /** Events that are read move from the queue to the collected paths. */
  lemma ReadKeepsAccount(m: Moment, taken: nat, collected: seq<Path>)
    requires Coherent(m) && Accounted(m, collected) && taken <= |m.unread|
    ensures Accounted(m.(unread := m.unread[taken..]), collected + PathsOf(m.edits, m.unread[..taken]))
  {
    var paths := PathsOf(m.edits, m.unread[..taken]);
    var later := m.(unread := m.unread[taken..]);
    forall i | 0 <= i < |m.edits| && IsCovered(m.edits[i], m.roots) ensures EditAccounted(later, collected + paths, i) {
      assert EditAccounted(m, collected, i);
      if i in m.unread {
        var k :| 0 <= k < |m.unread| && m.unread[k] == i;
        if k < taken {
          assert (collected + paths)[|collected| + k] == m.edits[i];
        } else {
          assert later.unread[k - taken] == i;
        }
      }
      if IsCovered(m.edits[i], collected) {
        var k :| 0 <= k < |collected| && collected[k] <= m.edits[i];
        assert (collected + paths)[k] <= m.edits[i];
      }
    }
  }

  lemma CoalescingKeepsAccount(m: Moment, collected: seq<Path>, kept: seq<Path>)
    requires Coalesced(collected, kept)
    ensures Accounted(m, collected) ==> Accounted(m, kept)
  {
    if Accounted(m, collected) {
      forall i | 0 <= i < |m.edits| && IsCovered(m.edits[i], m.roots) ensures EditAccounted(m, kept, i) {
        assert EditAccounted(m, collected, i);
        if IsCovered(m.edits[i], collected) { CoveredByCoalesced(m.edits[i], collected, kept); }
      }
    }
  }

  lemma CoveredByCoalesced(edit: Path, collected: seq<Path>, kept: seq<Path>)
    requires Coalesced(collected, kept) && IsCovered(edit, collected)
    ensures IsCovered(edit, kept)
  {
    var k :| 0 <= k < |collected| && collected[k] <= edit;
    assert collected[k] in collected;
    var j :| 0 <= j < |kept| && kept[j] <= collected[k];
    assert kept[j] <= edit;
  }

  /** A scan accounts for every edit made before it that it looks at. */
  lemma ScanAccounts(m: Moment, dirty: seq<Path>)
    requires dirty == [] || Accounted(m, dirty)
    ensures Accounted(m.(scans := m.scans + [Scan(|m.edits|, dirty)]), [])
  {
    var scan := Scan(|m.edits|, dirty);
    var later := m.(scans := m.scans + [scan]);
    forall i | 0 <= i < |m.edits| && IsCovered(m.edits[i], m.roots) ensures EditAccounted(later, [], i) {
      if dirty != [] { assert EditAccounted(m, dirty, i); }
      if dirty == [] || IsCovered(m.edits[i], dirty) {
        assert later.scans[|m.scans|] == scan && ScanSees(scan, i, m.edits[i]);
      } else if Scanned(i, m.edits[i], m.scans) {
        var k :| 0 <= k < |m.scans| && ScanSees(m.scans[k], i, m.edits[i]);
        assert later.scans[k] == m.scans[k];
      }
    }
  }

  lemma ScanIsLast(m: Moment, dirty: seq<Path>)
    requires Coherent(m) && (m.scans == [] ==> dirty == [])
    ensures Coherent(m.(scans := m.scans + [Scan(|m.edits|, dirty)]))
  {
  }

  /** A scan is told of every watched edit no earlier scan came after, except those
      whose events are still queued when it begins. */
  lemma ToldOrQueued(m: Moment, dirty: seq<Path>, i: nat)
    requires Accounted(m, dirty) && i < |m.edits| && IsCovered(m.edits[i], m.roots)
    requires forall k :: 0 <= k < |m.scans| ==> m.scans[k].start <= i
    ensures i in m.unread || IsCovered(m.edits[i], dirty)
  {
    assert EditAccounted(m, dirty, i);
  }

  /** With no event queued, every watched edit was made before a scan that looked at it. */
  lemma NothingQueued(m: Moment, i: nat)
    requires Accounted(m, []) && m.unread == [] && i < |m.edits| && IsCovered(m.edits[i], m.roots)
    ensures Scanned(i, m.edits[i], m.scans)
  {
    assert EditAccounted(m, [], i);
  }
}
