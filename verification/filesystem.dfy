/** The file system as the release installer sees it: the live release tree, the extracted archive
    and the rollback tree of the staging directory. Every call may fail with no effect, on a
    schedule fixed by an arbitrary fault oracle; a call can also fail for the usual reasons. */
module FileSystem {
  import opened Paths

  /** An element of a manifest's list: a bare name (schema v1) or a name with its digest (v2). */
  datatype ManifestEntry = Name(path: string) | Digest(path: string, sha256: string)

  /** File contents: plain bytes, or a manifest in the form JSON.parse would return it. */
  datatype Content =
    | Data(bytes: seq<nat>)
    | Manifest(schema: string, revision: string, files: seq<ManifestEntry>)

  datatype File = File(inode: nat, content: Content)

  /** Directories carry their inode number. */
  datatype Tree = Tree(files: map<Path, File>, dirs: map<Path, nat>)

  /** What a crash would leave of the two trees that hold originals. */
  datatype Snapshot = Snapshot(live: map<Path, File>, undo: map<Path, File>)

  function Parent(p: Path): Path
    requires p != []
  {
    p[..|p| - 1]
  }

  predicate WellFormed(t: Tree) {
    && [] in t.dirs
    && t.files.Keys !! t.dirs.Keys
    && (forall p | p in t.files :: p != [] && Parent(p) in t.dirs)
    && (forall d | d in t.dirs && d != [] :: Parent(d) in t.dirs)
  }

  predicate Exists(t: Tree, p: Path) {
    p in t.files || p in t.dirs
  }

  predicate EmptyDirectory(t: Tree, d: Path) {
    && (forall p | p in t.files && p != [] :: Parent(p) != d)
    && (forall p | p in t.dirs && p != [] :: Parent(p) != d)
  }

  predicate Same<V(==)>(a: map<Path, V>, b: map<Path, V>, p: Path) {
    (p in a <==> p in b) && (p in a ==> a[p] == b[p])
  }

  predicate Holds(m: map<Path, File>, p: Path, f: File) {
    p in m && m[p] == f
  }

  /** In a well-formed tree every proper prefix of an entry is a directory. */
  lemma {:induction false} PrefixesAreDirectories(t: Tree, p: Path, k: nat)
    requires WellFormed(t) && Exists(t, p) && k < |p|
    ensures p[..k] in t.dirs
    decreases |p|
  {
    if k < |p| - 1 {
      PrefixesAreDirectories(t, Parent(p), k);
      assert Parent(p)[..k] == p[..k];
    }
  }

  // ---- Moving a directory with everything in it ----

  /** Everything that is not at or below `root`. */
  function Outside<V>(m: map<Path, V>, root: Path): map<Path, V> {
    map p | p in m && !(root <= p) :: m[p]
  }

  function Rerooted(p: Path, from: Path, to: Path): Path
    requires from <= p
  {
    to + p[|from|..]
  }

  /** q is the new name of an entry of m, once `source` is called `destination`. */
  predicate Renamed<V>(m: map<Path, V>, source: Path, destination: Path, q: Path) {
    destination <= q && source + q[|destination|..] in m
  }

  /** What lies at or below `source`, under the names it has when `source` is called `destination`. */
  function Grafted<V>(m: map<Path, V>, source: Path, destination: Path): map<Path, V> {
    map q | q in (set p | p in m && source <= p :: Rerooted(p, source, destination))
            && Renamed(m, source, destination, q) ::
      m[source + q[|destination|..]]
  }

  lemma GraftedAt<V>(m: map<Path, V>, source: Path, destination: Path, q: Path)
    ensures q in Grafted(m, source, destination) <==> Renamed(m, source, destination, q)
    ensures q in Grafted(m, source, destination) ==>
      Grafted(m, source, destination)[q] == m[source + q[|destination|..]]
  {
    if Renamed(m, source, destination, q) {
      var p := source + q[|destination|..];
      assert Rerooted(p, source, destination) == q;
    }
  }

  function PrunedAt(t: Tree, root: Path): Tree {
    Tree(Outside(t.files, root), Outside(t.dirs, root))
  }

  lemma PrunedWellFormed(t: Tree, root: Path)
    requires WellFormed(t) && root != []
    ensures WellFormed(PrunedAt(t, root))
  {
    forall q | Exists(PrunedAt(t, root), q) && q != [] ensures Parent(q) in PrunedAt(t, root).dirs {
      assert Parent(q) in t.dirs;
      assert root <= Parent(q) ==> root <= q;
    }
  }

  function GraftedOnto(t: Tree, from: Tree, source: Path, destination: Path): Tree {
    Tree(t.files + Grafted(from.files, source, destination), t.dirs + Grafted(from.dirs, source, destination))
  }

  /** The name can take a directory: nothing is there, or an empty directory. */
  predicate FreeForTree(t: Tree, p: Path) {
    p !in t.files && p != [] && Parent(p) in t.dirs && (p in t.dirs ==> EmptyDirectory(t, p))
  }

  lemma {:induction false} NothingBelow(t: Tree, d: Path, q: Path)
    requires WellFormed(t) && Exists(t, q) && d < q && d != []
    ensures d in t.dirs && !EmptyDirectory(t, d)
  {
    var child := q[..|d| + 1];
    assert Parent(child) == d && q[..|d|] == d;
    PrefixesAreDirectories(t, q, |d|);
    if |child| < |q| { PrefixesAreDirectories(t, q, |child|); } else { assert child == q; }
  }

  lemma GraftedKeys(t: Tree, from: Tree, source: Path, destination: Path)
    ensures var now := GraftedOnto(t, from, source, destination);
      && (forall q :: q in now.files <==> q in t.files || Renamed(from.files, source, destination, q))
      && (forall q :: q in now.dirs <==> q in t.dirs || Renamed(from.dirs, source, destination, q))
  {
    hide Grafted, Renamed;
    var now := GraftedOnto(t, from, source, destination);
    forall q
      ensures q in now.files <==> q in t.files || Renamed(from.files, source, destination, q)
      ensures q in now.dirs <==> q in t.dirs || Renamed(from.dirs, source, destination, q)
    {
      GraftedAt(from.files, source, destination, q);
      GraftedAt(from.dirs, source, destination, q);
    }
  }

  lemma NothingInside(t: Tree, destination: Path, q: Path)
    requires WellFormed(t) && FreeForTree(t, destination) && Exists(t, q) && destination <= q
    ensures q == destination && q in t.dirs
  {
    if q != destination { NothingBelow(t, destination, q); }
  }

  lemma FileIsNotRoot(from: Tree, source: Path, destination: Path, q: Path)
    requires WellFormed(from) && source in from.dirs && Renamed(from.files, source, destination, q)
    ensures q != destination
  {
    assert source + destination[|destination|..] == source;
  }

  lemma RenamedParent<V>(m: map<Path, V>, from: Tree, source: Path, destination: Path, q: Path)
    requires Renamed(m, source, destination, q) && q != destination
    requires var p := source + q[|destination|..]; p != [] && Parent(p) in from.dirs
    ensures q != [] && Renamed(from.dirs, source, destination, Parent(q))
  {
    var p := source + q[|destination|..];
    assert Parent(p) == source + Parent(q)[|destination|..];
  }

  lemma GraftWellFormed(t: Tree, from: Tree, source: Path, destination: Path)
    requires WellFormed(t) && WellFormed(from) && source in from.dirs && FreeForTree(t, destination)
    ensures WellFormed(GraftedOnto(t, from, source, destination))
  {
    hide GraftedOnto, FreeForTree;
    var now := GraftedOnto(t, from, source, destination);
    GraftedKeys(t, from, source, destination);
    assert destination != [] && Parent(destination) in t.dirs && destination !in t.files by {
      ParentIsThere(t, destination);
    }
    forall q | q in now.files ensures q !in now.dirs && q != [] && Parent(q) in now.dirs {
      if q in t.files {
        if destination <= q { NothingInside(t, destination, q); }
      } else {
        if q in t.dirs { NothingInside(t, destination, q); }
        FileIsNotRoot(from, source, destination, q);
        RenamedParent(from.files, from, source, destination, q);
      }
    }
    forall q | q in now.dirs && q != [] ensures Parent(q) in now.dirs {
      if q !in t.dirs && q != destination {
        assert source + q[|destination|..] != [];
        RenamedParent(from.dirs, from, source, destination, q);
      }
    }
  }

  lemma ParentIsThere(t: Tree, destination: Path)
    requires FreeForTree(t, destination)
    ensures destination != [] && Parent(destination) in t.dirs && destination !in t.files
  {
  }

  /** What is not a directory has nothing below it. */
  lemma NotAbove(t: Tree, d: Path, q: Path)
    requires WellFormed(t) && Exists(t, q) && d !in t.dirs && d != q
    ensures !(d <= q)
  {
    assert d <= q && |d| == |q| ==> d == q;
    assert d < q ==> q[..|d|] == d;
    if d < q { PrefixesAreDirectories(t, q, |d|); }
  }

  datatype RmdirOutcome = Removed | Missing | NotEmpty | Error

  class Disk {
    var live: Tree
    var undo: Tree
    var extracted: map<Path, File>
    /** This call's staging directory exists; `undo` and `extracted` are in it. */
    var stage: bool
    /** Rollback trees in staging directories that earlier calls left behind. */
    var abandoned: seq<Tree>
    var lock: bool
    var clock: nat
    const fault: nat -> bool
    /** At these moments there is no room for a write. */
    const full: nat -> bool
    /** At these moments the mode of the release root cannot be set. */
    const barred: nat -> bool
    const inode: nat -> nat
    /** What a removal that fails half-way has not removed yet. */
    const kept: (nat, Path) -> bool
    ghost var trace: seq<Snapshot>

    constructor (live: Tree, fault: nat -> bool, full: nat -> bool, barred: nat -> bool, inode: nat -> nat,
                 kept: (nat, Path) -> bool)
      requires WellFormed(live)
      ensures Valid()
      ensures this.live == live && extracted == map[] && undo.files == map[]
      ensures !stage && !lock && clock == 0 && trace == [] && abandoned == []
      ensures this.fault == fault && this.full == full && this.barred == barred && this.inode == inode
      ensures this.kept == kept
    {
      this.live, extracted, undo := live, map[], Tree(map[], map[[] := inode(0)]);
      stage, lock, clock, trace, abandoned := false, false, 0, [], [];
      this.fault, this.full, this.barred, this.inode, this.kept := fault, full, barred, inode, kept;
    }

    /** Without a staging directory there is no rollback tree. */
    ghost predicate Valid() reads this {
      WellFormed(live) && WellFormed(undo) && (!stage ==> undo.files == map[])
    }

    /** Some call made since `from` was hit by the fault schedule. */
    ghost predicate Faulted(from: nat) reads this {
      exists n :: from <= n < clock && fault(n)
    }

    /** Some call since `from` was hit by the fault schedule, or a write made then would have found no room. */
    ghost predicate Hit(from: nat) reads this {
      exists n :: from <= n < clock && (fault(n) || full(n))
    }

    /** What enforceDeploymentRoot meets if it is called at this moment. */
    predicate RootFails(n: nat) {
      fault(n) || barred(n)
    }

    /** Some call since `from` was hit by the fault schedule, or met a release root whose mode cannot be set. */
    ghost predicate Troubled(from: nat) reads this {
      Faulted(from) || exists n :: from <= n < clock && barred(n)
    }

    ghost function Now(): Snapshot reads this {
      Snapshot(live.files, undo.files)
    }

    /** The rollback trees of all staging directories there are. */
    ghost function Stages(): seq<Tree> reads this {
      abandoned + if stage then [undo] else []
    }

    /** Any call whose effect is not modelled: chown, chmod, lstat, the copy of the archive. */
    method Tick() returns (ok: bool)
      modifies `clock
      ensures clock == old(clock) + 1
      ensures ok <==> !fault(old(clock))
    {
      ok := !fault(clock);
      clock := clock + 1;
    }

    /** enforceDeploymentRoot: chmod of the release root. */
    method EnforceRoot() returns (ok: bool)
      modifies `clock
      ensures clock == old(clock) + 1
      ensures ok <==> !RootFails(old(clock))
    {
      ok := !RootFails(clock);
      clock := clock + 1;
    }

    /** mkdir of the lock directory beside the release root; it fails when the lock is there already. */
    method TakeLock() returns (ok: bool)
      modifies `lock, `clock
      ensures clock == old(clock) + 1
      ensures ok <==> !fault(old(clock)) && !old(lock)
      ensures lock == (old(lock) || ok)
    {
      ok := !fault(clock) && !lock;
      lock, clock := lock || ok, clock + 1;
    }

    /** rmdir of the lock directory. */
    method ReleaseLock() returns (ok: bool)
      modifies `lock, `clock
      ensures clock == old(clock) + 1
      ensures ok <==> !fault(old(clock)) && old(lock)
      ensures lock == (old(lock) && !ok)
    {
      ok := !fault(clock) && lock;
      lock, clock := lock && !ok, clock + 1;
    }

    /** mkdtemp: an empty staging directory under a new name. */
    method MakeStage() returns (ok: bool)
      requires Valid()
      modifies `undo, `extracted, `stage, `abandoned, `clock
      ensures Valid() && clock == old(clock) + 1
      ensures ok <==> !fault(old(clock))
      ensures !ok ==>
        undo == old(undo) && extracted == old(extracted) && stage == old(stage) && abandoned == old(abandoned)
      ensures ok ==> stage && undo.files == map[] && undo.dirs.Keys == {[]} && extracted == map[]
      ensures ok ==> abandoned == if old(stage) then old(abandoned) + [old(undo)] else old(abandoned)
    {
      ok := !fault(clock);
      if ok {
        if stage { abandoned := abandoned + [undo]; }
        undo, extracted, stage := Tree(map[], map[[] := inode(clock)]), map[], true;
      }
      clock := clock + 1;
    }

    /** The archive, unpacked under the staging directory. */
    method Unpack(archive: map<Path, File>) returns (ok: bool)
      modifies `extracted, `clock
      ensures clock == old(clock) + 1
      ensures ok <==> !fault(old(clock))
      ensures ok ==> extracted == archive
    {
      ok := !fault(clock);
      if ok { extracted := archive; }
      clock := clock + 1;
    }

    method MakeLiveDirectory(d: Path) returns (ok: bool)
      requires Valid() && d != []
      modifies `live, `clock
      ensures Valid() && clock == old(clock) + 1
      ensures ok <==> !fault(old(clock)) && !Exists(old(live), d) && Parent(d) in old(live).dirs
      ensures live.files == old(live.files)
      ensures !ok ==> live == old(live)
      ensures ok ==> live.dirs == old(live.dirs)[d := inode(old(clock))]
    {
      ok := !fault(clock) && !Exists(live, d) && Parent(d) in live.dirs;
      if ok { live := Tree(live.files, live.dirs[d := inode(clock)]); }
      clock := clock + 1;
    }

    method RemoveLiveDirectory(d: Path) returns (r: RmdirOutcome)
      requires Valid() && d != []
      modifies `live, `clock
      ensures Valid() && clock == old(clock) + 1
      ensures live.files == old(live.files)
      ensures r.Removed? <==> !fault(old(clock)) && d in old(live).dirs && EmptyDirectory(old(live), d)
      ensures r.Missing? ==> !Exists(live, d)
      ensures r.NotEmpty? ==> d in live.dirs && !EmptyDirectory(live, d)
      ensures r.Error? <==> fault(old(clock)) || d in old(live).files
      ensures live.dirs == if r.Removed? then old(live.dirs) - {d} else old(live.dirs)
    {
      if fault(clock) || d in live.files { r := Error; }
      else if d !in live.dirs { r := Missing; }
      else if EmptyDirectory(live, d) { r := Removed; live := Tree(live.files, live.dirs - {d}); }
      else { r := NotEmpty; }
      clock := clock + 1;
    }

    method MakeUndoDirectory(d: Path) returns (ok: bool)
      requires Valid() && d != []
      modifies `undo, `clock
      ensures Valid() && clock == old(clock) + 1
      ensures ok <==> !fault(old(clock)) && !Exists(old(undo), d) && Parent(d) in old(undo).dirs
      ensures undo.files == old(undo.files)
      ensures !ok ==> undo == old(undo)
      ensures ok ==> undo.dirs == old(undo.dirs)[d := inode(old(clock))]
    {
      ok := !fault(clock) && !Exists(undo, d) && Parent(d) in undo.dirs;
      if ok { undo := Tree(undo.files, undo.dirs[d := inode(clock)]); }
      clock := clock + 1;
    }

    /** rename(live/source, rollback/destination) of a file. */
    method MoveToUndo(source: Path, destination: Path) returns (ok: bool)
      requires Valid() && stage && source !in live.dirs && destination != []
      modifies `live, `undo, `clock, `trace
      ensures Valid() && clock == old(clock) + 1
      ensures ok <==>
        (&& !fault(old(clock)) && source in old(live).files
         && destination !in old(undo).dirs && Parent(destination) in old(undo).dirs)
      ensures live.dirs == old(live.dirs) && undo.dirs == old(undo.dirs)
      ensures live.files == if ok then old(live.files) - {source} else old(live.files)
      ensures undo.files == if ok then old(undo.files)[destination := old(live.files[source])] else old(undo.files)
      ensures trace == if ok then old(trace) + [Now()] else old(trace)
    {
      ok := !fault(clock) && source in live.files && destination !in undo.dirs && Parent(destination) in undo.dirs;
      if ok {
        var f := live.files[source];
        live := Tree(live.files - {source}, live.dirs);
        undo := Tree(undo.files[destination := f], undo.dirs);
        trace := trace + [Now()];
      }
      clock := clock + 1;
    }

    /** rename(rollback/source, live/destination) of a file. */
    method MoveFromUndo(source: Path, destination: Path) returns (ok: bool)
      requires Valid() && source !in undo.dirs && destination != []
      modifies `live, `undo, `clock, `trace
      ensures Valid() && clock == old(clock) + 1
      ensures ok <==>
        (&& !fault(old(clock)) && source in old(undo).files
         && destination !in old(live).dirs && Parent(destination) in old(live).dirs)
      ensures live.dirs == old(live.dirs) && undo.dirs == old(undo.dirs)
      ensures undo.files == if ok then old(undo.files) - {source} else old(undo.files)
      ensures live.files == if ok then old(live.files)[destination := old(undo.files[source])] else old(live.files)
      ensures trace == if ok then old(trace) + [Now()] else old(trace)
    {
      ok := !fault(clock) && source in undo.files && destination !in live.dirs && Parent(destination) in live.dirs;
      if ok {
        var f := undo.files[source];
        undo := Tree(undo.files - {source}, undo.dirs);
        live := Tree(live.files[destination := f], live.dirs);
        trace := trace + [Now()];
      }
      clock := clock + 1;
    }

    /** rename(live/source, rollback/destination) of a directory. */
    method MoveTreeToUndo(source: Path, destination: Path) returns (ok: bool)
      requires Valid() && stage && source != []
      modifies `live, `undo, `clock, `trace
      ensures Valid() && clock == old(clock) + 1
      ensures ok <==> !fault(old(clock)) && source in old(live).dirs && FreeForTree(old(undo), destination)
      ensures live == if ok then PrunedAt(old(live), source) else old(live)
      ensures undo == if ok then GraftedOnto(old(undo), old(live), source, destination) else old(undo)
      ensures trace == if ok then old(trace) + [Now()] else old(trace)
    {
      hide GraftedOnto, PrunedAt, FreeForTree;
      ok := !fault(clock) && source in live.dirs && FreeForTree(undo, destination);
      if ok {
        GraftWellFormed(undo, live, source, destination);
        PrunedWellFormed(live, source);
        live, undo := PrunedAt(live, source), GraftedOnto(undo, live, source, destination);
        trace := trace + [Now()];
      }
      clock := clock + 1;
    }

    /** rename(rollback/source, live/destination) of a directory. */
    method MoveTreeFromUndo(source: Path, destination: Path) returns (ok: bool)
      requires Valid() && source != []
      modifies `live, `undo, `clock, `trace
      ensures Valid() && clock == old(clock) + 1
      ensures ok <==> !fault(old(clock)) && source in old(undo).dirs && FreeForTree(old(live), destination)
      ensures undo == if ok then PrunedAt(old(undo), source) else old(undo)
      ensures live == if ok then GraftedOnto(old(live), old(undo), source, destination) else old(live)
      ensures trace == if ok then old(trace) + [Now()] else old(trace)
    {
      ok := !fault(clock) && source in undo.dirs && FreeForTree(live, destination);
      if ok {
        GraftWellFormed(live, undo, source, destination);
        PrunedWellFormed(undo, source);
        undo, live := PrunedAt(undo, source), GraftedOnto(live, undo, source, destination);
        trace := trace + [Now()];
      }
      clock := clock + 1;
    }

    /** rename(extracted/entry, live/entry) */
    method Publish(entry: Path) returns (ok: bool)
      requires Valid() && entry != []
      modifies `live, `extracted, `clock, `trace
      ensures Valid() && clock == old(clock) + 1
      ensures ok <==>
        (!fault(old(clock)) && entry in old(extracted) && entry !in old(live).dirs && Parent(entry) in old(live).dirs)
      ensures live.dirs == old(live.dirs)
      ensures extracted == if ok then old(extracted) - {entry} else old(extracted)
      ensures live.files == if ok then old(live.files)[entry := old(extracted)[entry]] else old(live.files)
      ensures trace == if ok then old(trace) + [Now()] else old(trace)
    {
      ok := !fault(clock) && entry in extracted && entry !in live.dirs && Parent(entry) in live.dirs;
      if ok {
        live := Tree(live.files[entry := extracted[entry]], live.dirs);
        extracted := extracted - {entry};
        trace := trace + [Now()];
      }
      clock := clock + 1;
    }

    method Unlink(p: Path) returns (ok: bool)
      requires Valid() && p !in live.dirs
      modifies `live, `clock, `trace
      ensures Valid() && clock == old(clock) + 1
      ensures ok <==> !fault(old(clock)) && p in old(live).files
      ensures live.dirs == old(live.dirs)
      ensures live.files == if ok then old(live.files) - {p} else old(live.files)
      ensures trace == if ok then old(trace) + [Now()] else old(trace)
    {
      ok := !fault(clock) && p in live.files;
      if ok {
        live := Tree(live.files - {p}, live.dirs);
        trace := trace + [Now()];
      }
      clock := clock + 1;
    }

    /** open with O_CREAT and O_EXCL */
    method CreateExclusive(p: Path) returns (ok: bool)
      requires Valid() && p != []
      modifies `live, `clock, `trace
      ensures Valid() && clock == old(clock) + 1
      ensures ok <==> !fault(old(clock)) && !Exists(old(live), p) && Parent(p) in old(live).dirs
      ensures live.dirs == old(live.dirs)
      ensures live.files == if ok then old(live.files)[p := File(inode(old(clock)), Data([]))] else old(live.files)
      ensures trace == if ok then old(trace) + [Now()] else old(trace)
    {
      ok := !fault(clock) && !Exists(live, p) && Parent(p) in live.dirs;
      if ok {
        live := Tree(live.files[p := File(inode(clock), Data([]))], live.dirs);
        trace := trace + [Now()];
      }
      clock := clock + 1;
    }

    /** Write the whole content of an open file; a fault, or a full disk, may leave any part of it written. */
    method WriteContent(p: Path, content: Content, partial: Content) returns (ok: bool)
      requires Valid() && p in live.files
      modifies `live, `clock, `trace
      ensures Valid() && clock == old(clock) + 1
      ensures ok <==> !fault(old(clock)) && !full(old(clock))
      ensures live.dirs == old(live.dirs)
      ensures live.files == old(live.files)[p := File(old(live.files[p]).inode, if ok then content else partial)]
      ensures trace == old(trace) + [Now()]
    {
      ok := !fault(clock) && !full(clock);
      live := Tree(live.files[p := File(live.files[p].inode, if ok then content else partial)], live.dirs);
      trace := trace + [Now()];
      clock := clock + 1;
    }

    /** rename(live/source, live/destination) of a file. */
    method RenameLive(source: Path, destination: Path) returns (ok: bool)
      requires Valid() && source !in live.dirs && source != destination && destination != []
      modifies `live, `clock, `trace
      ensures Valid() && clock == old(clock) + 1
      ensures ok <==>
        (&& !fault(old(clock)) && source in old(live).files
         && destination !in old(live).dirs && Parent(destination) in old(live).dirs)
      ensures live.dirs == old(live.dirs)
      ensures live.files ==
        if ok then old(live.files)[destination := old(live.files[source])] - {source} else old(live.files)
      ensures trace == if ok then old(trace) + [Now()] else old(trace)
    {
      ok := !fault(clock) && source in live.files && destination !in live.dirs && Parent(destination) in live.dirs;
      if ok {
        live := Tree(live.files[destination := live.files[source]] - {source}, live.dirs);
        trace := trace + [Now()];
      }
      clock := clock + 1;
    }

    /** rm -r of the staging directory, rollback tree included; if it fails, any part may be gone. */
    method RemoveStage() returns (ok: bool)
      requires Valid()
      modifies `undo, `extracted, `stage, `clock, `trace
      ensures Valid() && clock == old(clock) + 1
      ensures ok <==> !fault(old(clock))
      ensures stage == (old(stage) && !ok)
      ensures forall p | p in undo.files :: p in old(undo).files && undo.files[p] == old(undo).files[p]
      ensures ok ==> undo.files == map[] && extracted == map[]
      ensures trace == old(trace) + [Now()]
    {
      ok := !fault(clock);
      if ok {
        undo, extracted, stage := Tree(map[], map[[] := inode(clock)]), map[], false;
      } else {
        undo := Tree(map p | p in undo.files && kept(clock, p) :: undo.files[p], undo.dirs);
      }
      trace := trace + [Now()];
      clock := clock + 1;
    }
  }
}
