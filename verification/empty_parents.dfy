/** The clean-up of directories that stale files may have left empty. */
module EmptyParents {
  import opened Paths
  import opened FileSystem
  import opened ReleaseSpec

  /** `d` and everything below it consists of ancestors of the entries: nothing there is a file. */
  predicate Removable(t: Tree, entries: seq<Path>, d: Path) {
    && Ancestor(entries, d)
    && (forall q | q in t.files :: !(d < q))
    && (forall q | q in t.dirs && d < q :: Ancestor(entries, q))
  }

  function Place(d: Path, sorted: seq<Path>): seq<Path> {
    if sorted == [] || |Join(sorted[0])| < |Join(d)| then [d] + sorted
    else [sorted[0]] + Place(d, sorted[1..])
  }

  /** Sorted by the length of the joined path, longest first. */
  function LongestFirst(paths: seq<Path>): seq<Path> {
    if paths == [] then [] else Place(paths[0], LongestFirst(paths[1..]))
  }

  predicate Descending(paths: seq<Path>) {
    forall i, j | 0 <= i < j < |paths| :: |Join(paths[j])| <= |Join(paths[i])|
  }

  lemma {:induction false} PlaceKeeps(d: Path, sorted: seq<Path>)
    requires Descending(sorted)
    ensures Descending(Place(d, sorted))
    ensures forall p :: p in Place(d, sorted) <==> p == d || p in sorted
  {
    if sorted != [] && |Join(sorted[0])| >= |Join(d)| {
      PlaceKeeps(d, sorted[1..]);
      assert sorted == [sorted[0]] + sorted[1..];
      var rest := Place(d, sorted[1..]);
      forall j | 0 <= j < |rest| ensures |Join(rest[j])| <= |Join(sorted[0])| {
        assert rest[j] in rest;
      }
    }
  }

  lemma {:induction false} LongestFirstSorts(paths: seq<Path>)
    ensures Descending(LongestFirst(paths))
    ensures forall p :: p in LongestFirst(paths) <==> p in paths
  {
    if paths != [] {
      LongestFirstSorts(paths[1..]);
      PlaceKeeps(paths[0], LongestFirst(paths[1..]));
    }
  }

  /** A path below another one has the longer joined form. */
  lemma {:induction false} DeeperIsLonger(d: Path, q: Path)
    requires d != [] && d < q
    ensures |Join(d)| < |Join(q)|
  {
    if |d| > 1 {
      assert d[1..] < q[1..];
      DeeperIsLonger(d[1..], q[1..]);
    }
  }

  method CollectParents(entries: seq<Path>) returns (parents: seq<Path>)
    ensures forall d :: d in parents <==> Ancestor(entries, d)
  {
    parents := [];
    for i := 0 to |entries|
      invariant forall d :: d in parents <==> Ancestor(entries[..i], d)
    {
      ghost var before := parents;
      var parent := if entries[i] == [] then [] else Parent(entries[i]);
      while parent != []
        invariant parent <= entries[i] && (parent == entries[i] ==> parent == [])
        invariant forall d :: d in parents <==> d in before || (d != [] && d < entries[i] && |parent| < |d|)
        decreases |parent|
      {
        if parent !in parents { parents := parents + [parent]; }
        assert forall d | d < entries[i] && |d| == |parent| :: d == parent;
        parent := Parent(parent);
      }
      assert entries[..i + 1] == entries[..i] + [entries[i]];
      forall d ensures d in parents <==> Ancestor(entries[..i + 1], d) {
        if d in before {
          var k :| 0 <= k < i && d < entries[k];
          assert entries[..i + 1][k] == entries[k];
        }
        if d != [] && d < entries[i] { assert entries[..i + 1][i] == entries[i]; }
      }
    }
    assert entries[..|entries|] == entries;
  }

  /** The tree has lost nothing but removable directories. */
  ghost predicate Pruned(was: Tree, now: Tree, entries: seq<Path>) {
    && now.files == was.files
    && (forall q | q in now.dirs :: q in was.dirs && now.dirs[q] == was.dirs[q])
    && (forall q | q in was.dirs && q !in now.dirs :: Removable(was, entries, q))
  }

  lemma EmptyIsRemovable(was: Tree, now: Tree, entries: seq<Path>, d: Path)
    requires WellFormed(was) && Pruned(was, now, entries) && Ancestor(entries, d) && EmptyDirectory(now, d)
    ensures Removable(was, entries, d)
  {
    forall q | Exists(was, q) && d < q ensures q !in was.files && Ancestor(entries, q) {
      var child := q[..|d| + 1];
      assert Parent(child) == d;
      if child != q {
        PrefixesAreDirectories(was, q, |d| + 1);
        assert child < q;
      }
    }
  }

  /** A directory all of whose removable descendants are gone is empty exactly when it is removable. */
  lemma EmptyIffRemovable(was: Tree, now: Tree, entries: seq<Path>, d: Path)
    requires WellFormed(was) && Pruned(was, now, entries) && Ancestor(entries, d)
    requires forall q | q in was.dirs && d < q && Removable(was, entries, q) :: q !in now.dirs
    ensures EmptyDirectory(now, d) <==> Removable(was, entries, d)
  {
    if EmptyDirectory(now, d) {
      EmptyIsRemovable(was, now, entries, d);
    }
  }

  /** The first k directories of the list have been dealt with. */
  ghost predicate Passed(was: Tree, now: Tree, entries: seq<Path>, sorted: seq<Path>, k: nat)
    requires k <= |sorted|
  {
    && Pruned(was, now, entries)
    && (forall i | 0 <= i < k :: sorted[i] !in was.files)
    && (forall i | 0 <= i < k && sorted[i] in now.dirs :: !Removable(was, entries, sorted[i]))
  }

  lemma NextIsDecided(was: Tree, now: Tree, entries: seq<Path>, sorted: seq<Path>, k: nat)
    requires k < |sorted| && Passed(was, now, entries, sorted, k) && WellFormed(was)
    requires Descending(sorted) && forall d :: d in sorted <==> Ancestor(entries, d)
    ensures EmptyDirectory(now, sorted[k]) <==> Removable(was, entries, sorted[k])
    ensures sorted[k] != [] && Ancestor(entries, sorted[k])
  {
    var d := sorted[k];
    assert d in sorted;
    forall q | q in was.dirs && d < q && Removable(was, entries, q) ensures q !in now.dirs {
      DeeperIsLonger(d, q);
      assert q in sorted;
    }
    EmptyIffRemovable(was, now, entries, d);
  }

  lemma StepPassed(was: Tree, now: Tree, next: Tree, entries: seq<Path>, sorted: seq<Path>, k: nat)
    requires k < |sorted| && Passed(was, now, entries, sorted, k) && sorted[k] !in now.files
    requires EmptyDirectory(now, sorted[k]) <==> Removable(was, entries, sorted[k])
    requires next.files == now.files
    requires next.dirs == if EmptyDirectory(now, sorted[k]) then now.dirs - {sorted[k]} else now.dirs
    ensures Passed(was, next, entries, sorted, k + 1)
  {
  }

  /** One pass is enough. */
  lemma PassComplete(was: Tree, now: Tree, entries: seq<Path>, sorted: seq<Path>)
    requires Passed(was, now, entries, sorted, |sorted|) && WellFormed(was)
    requires forall d :: d in sorted <==> Ancestor(entries, d)
    ensures forall d | d in now.dirs :: !Removable(was, entries, d)
    ensures forall d | d in now.dirs && Ancestor(entries, d) :: !EmptyDirectory(now, d)
    ensures forall d | Ancestor(entries, d) :: d !in now.files
  {
    forall d | d in now.dirs ensures !Removable(was, entries, d) {
      if Ancestor(entries, d) { assert d in sorted; }
    }
    forall d | d in now.dirs && Ancestor(entries, d) ensures !EmptyDirectory(now, d) {
      EmptyIffRemovable(was, now, entries, d);
    }
    forall d | Ancestor(entries, d) ensures d !in now.files { assert d in sorted; }
  }

  /** rmdir over all ancestors of the entries, longest path first. One pass removes exactly the
      removable ones; no ancestor that is left is empty. It stops early only on a fault, or because a
      file has taken the place of an ancestor. */
  method RemoveEmptyParents(disk: Disk, entries: seq<Path>) returns (ok: bool)
    requires disk.Valid()
    modifies disk`live, disk`clock
    ensures disk.Valid() && disk.clock >= old(disk.clock)
    ensures Pruned(old(disk.live), disk.live, entries)
    ensures ok ==> forall d | d in disk.live.dirs :: !Removable(old(disk.live), entries, d)
    ensures ok ==> forall d | d in disk.live.dirs && Ancestor(entries, d) :: !EmptyDirectory(disk.live, d)
    ensures ok ==> forall d | Ancestor(entries, d) :: d !in disk.live.files
    ensures !ok ==> disk.Faulted(old(disk.clock)) || exists d :: Ancestor(entries, d) && d in disk.live.files
  {
    hide Removable, Ancestor, EmptyDirectory, Descending, Passed, Pruned;
    var parents := CollectParents(entries);
    var sorted := LongestFirst(parents);
    LongestFirstSorts(parents);
    NothingPassed(disk.live, entries, sorted);
    for k := 0 to |sorted|
      invariant disk.Valid() && disk.clock >= old(disk.clock)
      invariant Passed(old(disk.live), disk.live, entries, sorted, k)
    {
      NextIsDecided(old(disk.live), disk.live, entries, sorted, k);
      ghost var before, now := disk.live, disk.clock;
      var r := disk.RemoveLiveDirectory(sorted[k]);
      if r.Error? {
        PassedIsPruned(old(disk.live), disk.live, entries, sorted, k);
        assert disk.fault(now) || (Ancestor(entries, sorted[k]) && sorted[k] in disk.live.files);
        return false;
      }
      assert r.Removed? || before.dirs - {sorted[k]} == before.dirs || !EmptyDirectory(before, sorted[k]);
      StepPassed(old(disk.live), before, disk.live, entries, sorted, k);
    }
    PassComplete(old(disk.live), disk.live, entries, sorted);
    PassedIsPruned(old(disk.live), disk.live, entries, sorted, |sorted|);
    ok := true;
  }

  lemma NothingPassed(was: Tree, entries: seq<Path>, sorted: seq<Path>)
    ensures Passed(was, was, entries, sorted, 0)
  {
  }

  lemma PassedIsPruned(was: Tree, now: Tree, entries: seq<Path>, sorted: seq<Path>, k: nat)
    requires k <= |sorted| && Passed(was, now, entries, sorted, k)
    ensures Pruned(was, now, entries)
  {
  }
}
