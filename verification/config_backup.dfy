/** The configuration backup that precedes an installation: the walk that takes stock of `.env`,
    `.env.runtime` and `runtime`, and the copy that follows. */
module ConfigBackup {
  import opened Wrappers
  import opened Paths
  import opened FileSystem
  import opened OpenFiles

  /** What a path names when the walk comes by. A link, a socket or the like is Other; `single` is a link
      count of one. */
  datatype Node =
    | Leaf(single: bool, bytes: seq<byte>, inode: nat, stamp: nat)
    | Directory(inode: nat, children: seq<Child>)
    | Other

  datatype Child = Child(name: string, node: Node)

  /** What the walk records; of `bytes` it keeps the length only. */
  datatype Entry =
    | FileEntry(path: Path, bytes: seq<byte>, inode: nat, stamp: nat)
    | DirectoryEntry(path: Path, inode: nat)

  datatype BackupError = EntryUnsafe | SizeExceeded | FileCountExceeded | EntryChanged | SystemError

  const RUNTIME: Path := ["runtime"]
  const M4: Path := ["runtime", "m4"]

  /** The one directory the walk leaves out. */
  predicate Skipped(path: Path, name: string) {
    path == RUNTIME && name == "m4"
  }

  // ---- What the walk should yield ----

  /** The node itself, then what is below it, in the order of the listings. */
  function Listing(node: Node, path: Path): seq<Entry>
    decreases node, if node.Directory? then |node.children| + 1 else 0
  {
    match node
    case Leaf(_, bytes, inode, stamp) => [FileEntry(path, bytes, inode, stamp)]
    case Directory(inode, children) => [DirectoryEntry(path, inode)] + Below(node, path, |children|)
    case Other => []
  }

  /** The listing of the first k children. */
  function Below(node: Node, path: Path, k: nat): seq<Entry>
    requires node.Directory? && k <= |node.children|
    decreases node, k
  {
    if k == 0 then []
    else
      var c := node.children[k - 1];
      Below(node, path, k - 1) + if Skipped(path, c.name) then [] else Listing(c.node, path + [c.name])
  }

  /** Nothing but directories and files with a single link, as far as the walk looks. */
  predicate Clean(node: Node, path: Path) {
    match node
    case Leaf(single, _, _, _) => single
    case Directory(_, children) =>
      forall i | 0 <= i < |children| && !Skipped(path, children[i].name) ::
        Clean(children[i].node, path + [children[i].name])
    case Other => false
  }

  predicate DistinctNames(node: Node) {
    node.Directory? ==>
      && (forall i, j | 0 <= i < j < |node.children| :: node.children[i].name != node.children[j].name)
      && (forall i | 0 <= i < |node.children| :: DistinctNames(node.children[i].node))
  }

  function TotalBytes(entries: seq<Entry>): nat {
    if entries == [] then 0
    else
      TotalBytes(entries[..|entries| - 1])
      + match entries[|entries| - 1] case FileEntry(_, b, _, _) => |b| case _ => 0
  }

  function TotalFiles(entries: seq<Entry>): nat {
    if entries == [] then 0
    else TotalFiles(entries[..|entries| - 1]) + if entries[|entries| - 1].FileEntry? then 1 else 0
  }

  lemma {:induction false} TotalsAdd(a: seq<Entry>, b: seq<Entry>)
    ensures TotalBytes(a + b) == TotalBytes(a) + TotalBytes(b)
    ensures TotalFiles(a + b) == TotalFiles(a) + TotalFiles(b)
  {
    if b == [] {
      assert a + b == a;
    } else {
      assert (a + b)[..|a + b| - 1] == a + b[..|b| - 1];
      TotalsAdd(a, b[..|b| - 1]);
    }
  }

  lemma {:induction false} BelowGrows(node: Node, path: Path, k: nat, n: nat)
    requires node.Directory? && k <= n <= |node.children|
    ensures TotalBytes(Below(node, path, k)) <= TotalBytes(Below(node, path, n))
    ensures TotalFiles(Below(node, path, k)) <= TotalFiles(Below(node, path, n))
    decreases n
  {
    hide Listing, TotalBytes, TotalFiles;
    if k < n {
      var c := node.children[n - 1];
      BelowGrows(node, path, k, n - 1);
      TotalsAdd(Below(node, path, n - 1), if Skipped(path, c.name) then [] else Listing(c.node, path + [c.name]));
    }
  }

  // ---- The walk ----

  class Inspection {
    const maxBytes: nat
    const maxFiles: nat
    var entries: seq<Entry>
    var bytes: nat
    var files: nat

    constructor (maxBytes: nat, maxFiles: nat)
      ensures this.maxBytes == maxBytes && this.maxFiles == maxFiles && entries == [] && Valid()
    {
      this.maxBytes, this.maxFiles := maxBytes, maxFiles;
      entries, bytes, files := [], 0, 0;
    }

    predicate Fits(entries: seq<Entry>) {
      TotalBytes(entries) <= maxBytes && TotalFiles(entries) <= maxFiles
    }

    /** The counters are the true totals, and within the limits. */
    predicate Valid() reads this {
      bytes == TotalBytes(entries) && files == TotalFiles(entries) && Fits(entries)
    }

    /** What a refusal says: something is not ordinary, or the entries would be too large or too many. */
    predicate Blames(error: BackupError, clean: bool, entries: seq<Entry>) {
      match error
      case EntryUnsafe => !clean
      case SizeExceeded => TotalBytes(entries) > maxBytes
      case FileCountExceeded => TotalFiles(entries) > maxFiles
      case _ => false
    }

    method AddFile(node: Node, path: Path) returns (error: Option<BackupError>)
      requires Valid()
      modifies this
      ensures error.Some? ==> Blames(error.value, node.Leaf? && node.single, old(entries) + Listing(node, path))
      ensures error.None? <==> node.Leaf? && Clean(node, path) && Fits(old(entries) + Listing(node, path))
      ensures error.None? ==> Valid() && entries == old(entries) + Listing(node, path)
    {
      if !node.Leaf? || !node.single { return Some(EntryUnsafe); }
      TotalsAdd(entries, Listing(node, path));
      assert TotalBytes([FileEntry(path, node.bytes, node.inode, node.stamp)]) == |node.bytes| by {
        assert [FileEntry(path, node.bytes, node.inode, node.stamp)][..0] == [];
      }
      assert TotalFiles([FileEntry(path, node.bytes, node.inode, node.stamp)]) == 1 by {
        assert [FileEntry(path, node.bytes, node.inode, node.stamp)][..0] == [];
      }
      bytes := bytes + |node.bytes|;
      files := files + 1;
      if bytes > maxBytes { return Some(SizeExceeded); }
      if files > maxFiles { return Some(FileCountExceeded); }
      entries := entries + [FileEntry(path, node.bytes, node.inode, node.stamp)];
      error := None;
    }

    /** One child: walked, added or refused. */
    method Visit(node: Node, path: Path) returns (error: Option<BackupError>)
      requires Valid()
      modifies this
      ensures error.None? <==> Clean(node, path) && Fits(old(entries) + Listing(node, path))
      ensures error.Some? ==> Blames(error.value, Clean(node, path), old(entries) + Listing(node, path))
      ensures error.None? ==> Valid() && entries == old(entries) + Listing(node, path)
      decreases node, 1
    {
      if node.Directory? {
        error := Walk(node, path);
      } else if node.Leaf? {
        error := AddFile(node, path);
      } else {
        error := Some(EntryUnsafe);
      }
    }

    /** The walk succeeds exactly when everything it meets is an ordinary file or directory and the totals
        stay within the limits; the entries are then the listing. */
    method Walk(node: Node, path: Path) returns (error: Option<BackupError>)
      requires Valid()
      modifies this
      ensures error.None? <==> node.Directory? && Clean(node, path) && Fits(old(entries) + Listing(node, path))
      ensures error.Some? ==>
        Blames(error.value, node.Directory? && Clean(node, path), old(entries) + Listing(node, path))
      ensures error.None? ==> Valid() && entries == old(entries) + Listing(node, path)
      decreases node, 0
    {
      hide Listing, Walked, Skipped, TotalBytes, TotalFiles;
      if !node.Directory? { return Some(EntryUnsafe); }
      ghost var was := entries;
      WalkStarts(was, node, path);
      entries := entries + [DirectoryEntry(path, node.inode)];
      for k := 0 to |node.children|
        invariant Valid() && entries == Walked(was, node, path, k)
        invariant forall i | 0 <= i < k && !Skipped(path, node.children[i].name) ::
          Clean(node.children[i].node, path + [node.children[i].name])
      {
        var c := node.children[k];
        WalkGoesOn(was, node, path, k);
        if Skipped(path, c.name) { continue; }
        error := Visit(c.node, path + [c.name]);
        if error.Some? { return; }
      }
      error := None;
    }
  }

  /** The entries after the first k children of a directory. */
  function Walked(was: seq<Entry>, node: Node, path: Path, k: nat): seq<Entry>
    requires node.Directory? && k <= |node.children|
  {
    was + [DirectoryEntry(path, node.inode)] + Below(node, path, k)
  }

  lemma WalkStarts(was: seq<Entry>, node: Node, path: Path)
    requires node.Directory?
    ensures Walked(was, node, path, 0) == was + [DirectoryEntry(path, node.inode)]
    ensures Walked(was, node, path, |node.children|) == was + Listing(node, path)
    ensures TotalBytes(was + [DirectoryEntry(path, node.inode)]) == TotalBytes(was)
    ensures TotalFiles(was + [DirectoryEntry(path, node.inode)]) == TotalFiles(was)
  {
    assert [DirectoryEntry(path, node.inode)][..0] == [];
    TotalsAdd(was, [DirectoryEntry(path, node.inode)]);
  }

  lemma WalkNext(was: seq<Entry>, node: Node, path: Path, k: nat)
    requires node.Directory? && k < |node.children|
    ensures var c, now, next := node.children[k], Walked(was, node, path, k), Walked(was, node, path, k + 1);
      next == if Skipped(path, c.name) then now else now + Listing(c.node, path + [c.name])
  {
    hide Listing, Skipped;
    var c := node.children[k];
    var more := if Skipped(path, c.name) then [] else Listing(c.node, path + [c.name]);
    assert Below(node, path, k + 1) == Below(node, path, k) + more;
    assert Walked(was, node, path, k + 1) == Walked(was, node, path, k) + more;
  }

  /** The next child, and the totals that can only grow until the end of the directory. */
  lemma WalkGoesOn(was: seq<Entry>, node: Node, path: Path, k: nat)
    requires node.Directory? && k < |node.children|
    ensures var c, now, next := node.children[k], Walked(was, node, path, k), Walked(was, node, path, k + 1);
      next == if Skipped(path, c.name) then now else now + Listing(c.node, path + [c.name])
    ensures TotalBytes(Walked(was, node, path, k + 1)) <= TotalBytes(was + Listing(node, path))
    ensures TotalFiles(Walked(was, node, path, k + 1)) <= TotalFiles(was + Listing(node, path))
  {
    hide TotalBytes, TotalFiles, Listing, Below, Skipped;
    var n, head := |node.children|, was + [DirectoryEntry(path, node.inode)];
    WalkNext(was, node, path, k);
    WalkStarts(was, node, path);
    BelowGrows(node, path, k + 1, n);
    TotalsAdd(head, Below(node, path, k + 1));
    TotalsAdd(head, Below(node, path, n));
  }

  /** All three are ordinary, and their totals within the limits. */
  ghost predicate Acceptable(env: Node, runtimeEnv: Node, runtime: Node, maxBytes: nat, maxFiles: nat) {
    && env.Leaf? && env.single && runtimeEnv.Leaf? && runtimeEnv.single
    && runtime.Directory? && OrdinaryBelow(runtime, RUNTIME)
    && TotalBytes(Inventory(env, runtimeEnv, runtime)) <= maxBytes
    && TotalFiles(Inventory(env, runtimeEnv, runtime)) <= maxFiles
  }

  /** inspectConfiguration */
  method InspectConfiguration(env: Node, runtimeEnv: Node, runtime: Node, maxBytes: nat, maxFiles: nat)
    returns (error: Option<BackupError>, entries: seq<Entry>, bytes: nat, files: nat)
    ensures error.None? ==> entries == Inventory(env, runtimeEnv, runtime)
    ensures error.None? ==> bytes == TotalBytes(entries) <= maxBytes && files == TotalFiles(entries) <= maxFiles
    ensures error.None? <==> Acceptable(env, runtimeEnv, runtime, maxBytes, maxFiles)
    ensures error.Some? ==>
      match error.value
      case EntryUnsafe =>
        || !env.Leaf? || !env.single || !runtimeEnv.Leaf? || !runtimeEnv.single
        || !runtime.Directory? || !OrdinaryBelow(runtime, RUNTIME)
      case SizeExceeded => TotalBytes(Inventory(env, runtimeEnv, runtime)) > maxBytes
      case FileCountExceeded => TotalFiles(Inventory(env, runtimeEnv, runtime)) > maxFiles
      case _ => false
  {
    hide OrdinaryBelow;
    CleanIff(runtime, RUNTIME);
    var inspection := new Inspection(maxBytes, maxFiles);
    entries, bytes, files := [], 0, 0;
    var a, b, c := Listing(env, [".env"]), Listing(runtimeEnv, [".env.runtime"]), Listing(runtime, RUNTIME);
    TotalsAdd(a, b);
    TotalsAdd(a + b, c);
    assert [] + a == a;
    error := inspection.AddFile(env, [".env"]);
    if error.Some? { return; }
    error := inspection.AddFile(runtimeEnv, [".env.runtime"]);
    if error.Some? { return; }
    error := inspection.Walk(runtime, RUNTIME);
    entries, bytes, files := inspection.entries, inspection.bytes, inspection.files;
  }

  function Inventory(env: Node, runtimeEnv: Node, runtime: Node): seq<Entry> {
    Listing(env, [".env"]) + Listing(runtimeEnv, [".env.runtime"]) + Listing(runtime, RUNTIME)
  }

  // ---- The listing is exactly the tree ----

  /** `target` is what the path `rel` leads to from `node`. */
  predicate At(node: Node, rel: Path, target: Node) {
    if rel == [] then target == node
    else
      node.Directory? && exists i | 0 <= i < |node.children| ::
        node.children[i].name == rel[0] && At(node.children[i].node, rel[1..], target)
  }

  /** Inside the directory the walk leaves out. */
  predicate Hidden(p: Path) {
    M4 <= p
  }

  function EntryOf(path: Path, node: Node): Entry
    requires !node.Other?
  {
    if node.Directory? then DirectoryEntry(path, node.inode)
    else FileEntry(path, node.bytes, node.inode, node.stamp)
  }

  lemma HiddenBelow(path: Path, name: string, rel: Path)
    requires !Hidden(path) && path != []
    ensures Hidden(path + [name]) <==> Skipped(path, name)
    ensures Hidden(path + ([name] + rel)) <== Skipped(path, name)
  {
    var p := path + [name];
    if |path| == 1 {
      assert Hidden(p) <==> p == M4;
      assert p == M4 ==> p[0] == "runtime" && p[1] == "m4";
      assert Skipped(path, name) ==> p == M4;
    } else {
      assert p[..2] == path[..2];
    }
    if Skipped(path, name) { assert (path + ([name] + rel))[..2] == M4; }
  }

  /** Whatever is in the tree outside the hidden directory is listed. */
  lemma {:induction false} ListsEverything(node: Node, path: Path, rel: Path, target: Node)
    requires At(node, rel, target) && !target.Other? && path != [] && !Hidden(path + rel)
    ensures EntryOf(path + rel, target) in Listing(node, path)
    decreases rel
  {
    if rel == [] {
      assert path + rel == path;
    } else {
      var i :|
        0 <= i < |node.children| && node.children[i].name == rel[0] && At(node.children[i].node, rel[1..], target);
      var name := rel[0];
      assert path + rel == path + [name] + rel[1..];
      assert rel == [name] + rel[1..];
      if |path| >= 2 { assert (path + rel)[..2] == path[..2]; }
      HiddenBelow(path, name, rel[1..]);
      ListsEverything(node.children[i].node, path + [name], rel[1..], target);
      BelowHolds(node, path, i, |node.children|, EntryOf(path + rel, target));
    }
  }

  lemma {:induction false} BelowHolds(node: Node, path: Path, i: nat, k: nat, e: Entry)
    requires node.Directory? && i < k <= |node.children| && !Skipped(path, node.children[i].name)
    requires e in Listing(node.children[i].node, path + [node.children[i].name])
    ensures e in Below(node, path, k)
    decreases k
  {
    if i < k - 1 { BelowHolds(node, path, i, k - 1, e); }
  }

  /** And nothing else is. */
  lemma {:induction false} ListsNothingElse(node: Node, path: Path, e: Entry) returns (rel: Path, target: Node)
    requires e in Listing(node, path) && path != [] && !Hidden(path)
    ensures At(node, rel, target) && !target.Other? && e == EntryOf(path + rel, target) && !Hidden(path + rel)
    decreases node, if node.Directory? then |node.children| + 1 else 0
  {
    rel, target := [], node;
    assert path + rel == path;
    if node.Directory? && e != DirectoryEntry(path, node.inode) {
      rel, target := BelowNothingElse(node, path, |node.children|, e);
    }
  }

  lemma {:induction false} BelowNothingElse(node: Node, path: Path, k: nat, e: Entry) returns (rel: Path, target: Node)
    requires node.Directory? && k <= |node.children| && e in Below(node, path, k) && path != [] && !Hidden(path)
    ensures rel != [] && At(node, rel, target) && !target.Other? && e == EntryOf(path + rel, target)
    ensures !Hidden(path + rel)
    ensures exists i | 0 <= i < k :: rel[0] == node.children[i].name
    decreases node, k
  {
    hide At, Hidden, Listing;
    var c := node.children[k - 1];
    if e in Below(node, path, k - 1) {
      rel, target := BelowNothingElse(node, path, k - 1, e);
    } else {
      assert !Hidden(path + [c.name]) by { HiddenBelow(path, c.name, []); }
      var inner, t := ListsNothingElse(c.node, path + [c.name], e);
      rel, target := [c.name] + inner, t;
      assert path + rel == path + [c.name] + inner;
      AtChild(node, k - 1, inner, t);
    }
  }

  lemma AtChild(node: Node, i: nat, inner: Path, target: Node)
    requires node.Directory? && i < |node.children| && At(node.children[i].node, inner, target)
    ensures At(node, [node.children[i].name] + inner, target)
  {
    var rel := [node.children[i].name] + inner;
    assert rel[1..] == inner && rel[0] == node.children[i].name;
  }

  /** A directory, or a file with no other name. */
  predicate Ordinary(node: Node) {
    node.Directory? || (node.Leaf? && node.single)
  }

  /** Everything in the tree outside the hidden directory is ordinary. */
  ghost predicate OrdinaryBelow(node: Node, path: Path) {
    forall rel: Path, target: Node | At(node, rel, target) && !Hidden(path + rel) :: Ordinary(target)
  }

  lemma {:induction false} CleanBelow(node: Node, path: Path, rel: Path, target: Node)
    requires Clean(node, path) && At(node, rel, target) && path != [] && !Hidden(path + rel)
    ensures Ordinary(target)
    decreases rel
  {
    if rel != [] {
      var i :|
        0 <= i < |node.children| && node.children[i].name == rel[0] && At(node.children[i].node, rel[1..], target);
      assert path + rel == path + [rel[0]] + rel[1..];
      assert rel == [rel[0]] + rel[1..];
      if |path| >= 2 { assert (path + rel)[..2] == path[..2]; }
      HiddenBelow(path, rel[0], rel[1..]);
      CleanBelow(node.children[i].node, path + [rel[0]], rel[1..], target);
    }
  }

  /** What keeps a tree from being clean. */
  lemma {:induction false} Blemish(node: Node, path: Path) returns (rel: Path, target: Node)
    requires !Clean(node, path) && path != [] && !Hidden(path)
    ensures At(node, rel, target) && !Hidden(path + rel) && !Ordinary(target)
    decreases node
  {
    rel, target := [], node;
    assert path + rel == path;
    if node.Directory? {
      var i :| 0 <= i < |node.children| && !Skipped(path, node.children[i].name)
        && !Clean(node.children[i].node, path + [node.children[i].name]);
      var name := node.children[i].name;
      assert !Hidden(path + [name]) by { HiddenBelow(path, name, []); }
      var inner, t := Blemish(node.children[i].node, path + [name]);
      rel, target := [name] + inner, t;
      assert path + rel == path + [name] + inner;
      AtChild(node, i, inner, t);
    }
  }

  /** A tree is clean exactly if nothing in it is a link, a device or a file with a second name. */
  lemma CleanIff(node: Node, path: Path)
    requires path != [] && !Hidden(path)
    ensures Clean(node, path) <==> OrdinaryBelow(node, path)
  {
    if Clean(node, path) {
      forall rel: Path, target: Node | At(node, rel, target) && !Hidden(path + rel) ensures Ordinary(target) {
        CleanBelow(node, path, rel, target);
      }
    } else {
      var rel, target := Blemish(node, path);
    }
  }

  predicate NoPathTwice(entries: seq<Entry>) {
    forall i, j | 0 <= i < j < |entries| :: entries[i].path != entries[j].path
  }

  lemma JoinDistinct(a: seq<Entry>, b: seq<Entry>)
    requires NoPathTwice(a) && NoPathTwice(b) && forall x, y | x in a && y in b :: x.path != y.path
    ensures NoPathTwice(a + b)
  {
    var all := a + b;
    forall i, j | 0 <= i < j < |all| ensures all[i].path != all[j].path {
      if i < |a| <= j { assert all[i] in a && all[j] in b; }
    }
  }

  /** Each path is listed once. */
  lemma {:induction false} ListedOnce(node: Node, path: Path)
    requires DistinctNames(node) && path != [] && !Hidden(path)
    ensures NoPathTwice(Listing(node, path))
    decreases node, if node.Directory? then |node.children| + 1 else 0
  {
    if node.Directory? {
      var n := |node.children|;
      BelowOnce(node, path, n);
      forall y | y in Below(node, path, n) ensures y.path != path {
        var rel, target := BelowNothingElse(node, path, n, y);
      }
      JoinDistinct([DirectoryEntry(path, node.inode)], Below(node, path, n));
    }
  }

  lemma EntryHasPath(path: Path, node: Node)
    requires !node.Other?
    ensures EntryOf(path, node).path == path
  {
  }

  lemma {:induction false} BelowOnce(node: Node, path: Path, k: nat)
    requires node.Directory? && k <= |node.children| && DistinctNames(node) && path != [] && !Hidden(path)
    ensures NoPathTwice(Below(node, path, k))
    decreases node, k
  {
    hide Listing, At, Hidden, EntryOf, Skipped;
    if k > 0 {
      var c := node.children[k - 1];
      BelowOnce(node, path, k - 1);
      if !Skipped(path, c.name) {
        var child := path + [c.name];
        assert !Hidden(child) by { HiddenBelow(path, c.name, []); }
        ListedOnce(c.node, child);
        forall x, y | x in Below(node, path, k - 1) && y in Listing(c.node, child) ensures x.path != y.path {
          var rel, t := BelowNothingElse(node, path, k - 1, x);
          var inner, u := ListsNothingElse(c.node, child, y);
          assert x.path == path + rel && y.path == child + inner by {
            EntryHasPath(path + rel, t);
            EntryHasPath(child + inner, u);
          }
          assert x.path[|path|] == rel[0] && y.path[|path|] == c.name;
        }
        JoinDistinct(Below(node, path, k - 1), Listing(c.node, child));
      }
    }
  }

  predicate IsParent(e: Entry, child: Entry)
    requires child.path != []
  {
    e.DirectoryEntry? && e.path == Parent(child.path)
  }

  /** The directory above entry i is listed before it. */
  predicate ParentEarlier(entries: seq<Entry>, i: nat)
    requires i < |entries| && entries[i].path != []
  {
    exists j | 0 <= j < i :: IsParent(entries[j], entries[i])
  }

  /** In a listing every entry but the first has its parent before it. */
  lemma {:induction false} ParentsFirst(node: Node, path: Path, i: nat)
    requires path != [] && 0 < i < |Listing(node, path)|
    ensures Listing(node, path)[i].path != [] && ParentEarlier(Listing(node, path), i)
    ensures node.Directory? && Listing(node, path)[0] == DirectoryEntry(path, node.inode)
    decreases node, if node.Directory? then |node.children| + 1 else 0
  {
    BelowParents(node, path, |node.children|, i - 1);
  }

  /** Below a directory, with that directory put in front. */
  lemma {:induction false} BelowParents(node: Node, path: Path, k: nat, i: nat)
    requires path != [] && node.Directory? && k <= |node.children| && i < |Below(node, path, k)|
    ensures var all := [DirectoryEntry(path, node.inode)] + Below(node, path, k);
      all[i + 1].path != [] && ParentEarlier(all, i + 1)
    decreases node, k
  {
    var head: seq<Entry> := [DirectoryEntry(path, node.inode)];
    var all := head + Below(node, path, k);
    var c := node.children[k - 1];
    var before := Below(node, path, k - 1);
    if i < |before| {
      BelowParents(node, path, k - 1, i);
      var prior := head + before;
      var j :| 0 <= j < i + 1 && IsParent(prior[j], prior[i + 1]);
      assert all[j] == prior[j];
    } else {
      var child := path + [c.name];
      var own := Listing(c.node, child);
      var at := i - |before|;
      assert all[i + 1] == own[at];
      if at == 0 {
        assert own[0].path == child && Parent(child) == path;
        assert all[0] == DirectoryEntry(path, node.inode);
      } else {
        ParentsFirst(c.node, child, at);
        var j :| 0 <= j < at && IsParent(own[j], own[at]);
        assert all[1 + |before| + j] == own[j];
      }
    }
  }

  // ---- The copy ----

  /** Every entry lies directly in the backup's root or in a directory listed before it. */
  predicate Grounded(entries: seq<Entry>) {
    forall i | 0 <= i < |entries| ::
      entries[i].path != [] && (Parent(entries[i].path) == [] || ParentEarlier(entries, i))
  }

  /** An inventory lists every path once, parents before children. */
  lemma InventoryOrdered(env: Node, runtimeEnv: Node, runtime: Node)
    requires env.Leaf? && runtimeEnv.Leaf? && runtime.Directory? && DistinctNames(runtime)
    ensures NoPathTwice(Inventory(env, runtimeEnv, runtime)) && Grounded(Inventory(env, runtimeEnv, runtime))
  {
    hide Listing, Below;
    var a, b, c := Listing(env, [".env"]), Listing(runtimeEnv, [".env.runtime"]), Listing(runtime, RUNTIME);
    LeafListing(env, [".env"]);
    LeafListing(runtimeEnv, [".env.runtime"]);
    ListedOnce(runtime, RUNTIME);
    forall x: Entry, y: Entry | x in a + b && y in c ensures x.path != y.path {
      var rel, target := ListsNothingElse(runtime, RUNTIME, y);
      assert y.path[0] == "runtime";
    }
    JoinDistinct(a, b);
    JoinDistinct(a + b, c);
    var all := a + b + c;
    forall i | 0 <= i < |all| ensures all[i].path != [] && (Parent(all[i].path) == [] || ParentEarlier(all, i)) {
      if i >= 2 {
        assert all[i] == c[i - 2];
        RuntimeFirst(runtime);
        if i > 2 {
          ParentsFirst(runtime, RUNTIME, i - 2);
          var j :| 0 <= j < i - 2 && IsParent(c[j], c[i - 2]);
          assert all[j + 2] == c[j];
        }
      }
    }
  }

  lemma LeafListing(node: Node, path: Path)
    requires node.Leaf?
    ensures Listing(node, path) == [FileEntry(path, node.bytes, node.inode, node.stamp)]
  {
  }

  lemma RuntimeFirst(runtime: Node)
    requires runtime.Directory?
    ensures |Listing(runtime, RUNTIME)| > 0 && Listing(runtime, RUNTIME)[0] == DirectoryEntry(RUNTIME, runtime.inode)
  {
  }

  /** What a path names when the copy comes by. */
  datatype Found = Missing | FoundFile(inode: nat) | FoundDirectory(inode: nat) | FoundOther

  /** The source paths and files while they are copied, over time. */
  datatype World = World(at: (Path, nat) -> Found, file: nat -> History)

  function StatOf(e: Entry): Stat
    requires e.FileEntry?
  {
    Stat(e.inode, |e.bytes|, e.stamp)
  }

  /** The walk saw what it recorded, at the times `when`. */
  ghost predicate Witnessed(entries: seq<Entry>, world: World, when: Path -> nat, now: nat) {
    forall e | e in entries && e.FileEntry? ::
      when(e.path) <= now && Stamped(world.file(e.inode))
      && Recorded(world.file(e.inode), StatOf(e), when(e.path), e.bytes)
  }

  /** From `now` on, nothing that the walk recorded changes. */
  ghost predicate Untouched(e: Entry, world: World, now: nat) {
    forall t | now <= t ::
      if e.DirectoryEntry? then world.at(e.path, t) == FoundDirectory(e.inode)
      else world.at(e.path, t) == FoundFile(e.inode) && world.file(e.inode)(t).single
           && world.file(e.inode)(t).stamp == e.stamp
  }

  class BackupTree {
    var dirs: set<Path>
    var files: map<Path, seq<byte>>

    constructor ()
      ensures dirs == {[]} && files == map[]
    {
      dirs, files := {[]}, map[];
    }

    predicate Free(p: Path) reads this {
      p != [] && p !in dirs && p !in files && Parent(p) in dirs
    }

    /** lstat of the source directory, then mkdir of its copy. */
    method MakeDirectory(io: Io, world: World, e: Entry) returns (error: Option<BackupError>)
      requires e.DirectoryEntry?
      modifies this, io`calls
      ensures files == old(files) && io.calls > old(io.calls)
      ensures dirs == if error.None? then old(dirs) + {e.path} else old(dirs)
      ensures error.None? ==> world.at(e.path, old(io.calls)) == FoundDirectory(e.inode)
      ensures error.Some? ==> !io.Willing() || !old(Free(e.path)) || !Untouched(e, world, old(io.calls))
    {
      var n := io.calls;
      io.calls := n + 2;
      if io.fail(n) { return Some(SystemError); }
      if world.at(e.path, n) != FoundDirectory(e.inode) { return Some(EntryChanged); }
      if !Free(e.path) || io.fail(n + 1) { return Some(SystemError); }
      dirs := dirs + {e.path};
      error := None;
    }

    /** Without an error, the copy is what the walk had seen. */
    method CopyFile(io: Io, world: World, e: Entry, ghost since: nat) returns (error: Option<BackupError>)
      requires e.FileEntry? && since <= io.calls && Stamped(world.file(e.inode))
      requires Recorded(world.file(e.inode), StatOf(e), since, e.bytes)
      modifies this, io`calls
      ensures dirs == old(dirs) && io.calls > old(io.calls)
      ensures error.None? ==> files == old(files)[e.path := e.bytes]
      ensures error.Some? ==> !io.Willing() || !old(Free(e.path)) || !Untouched(e, world, old(io.calls))
    {
      var n := io.calls;
      io.calls := n + 1;
      if io.fail(n) || !Free(e.path) { return Some(SystemError); }
      if !world.at(e.path, n).FoundFile? { return Some(EntryChanged); }
      var target := new OpenFile();
      var inode := world.at(e.path, n).inode;
      var failed := CopyOpenFile(io, inode, world.file(inode), StatOf(e), target, since, e.bytes);
      files := files[e.path := target.content];
      error := if failed.None? then None else if failed.value.Changed? then Some(EntryChanged) else Some(SystemError);
    }
  }

  function DirectoryPaths(entries: seq<Entry>): set<Path> {
    set e | e in entries && e.DirectoryEntry? :: e.path
  }

  function FilePaths(entries: seq<Entry>): set<Path> {
    set e | e in entries && e.FileEntry? :: e.path
  }

  /** createConfigurationBackup: directories first, then the files. A backup without an error is exactly the
      inventory, each file with the bytes it held when the walk looked at it, whatever has happened to the
      sources since. If nothing that the walk recorded changes, only the system calls can make it fail. */
  method CreateBackup(io: Io, entries: seq<Entry>, world: World, ghost when: Path -> nat)
    returns (error: Option<BackupError>, backup: BackupTree)
    requires NoPathTwice(entries) && Grounded(entries) && Witnessed(entries, world, when, io.calls)
    modifies io`calls
    ensures fresh(backup)
    ensures error.None? ==> backup.dirs == {[]} + DirectoryPaths(entries) && backup.files.Keys == FilePaths(entries)
    ensures error.None? ==> forall e | e in entries && e.FileEntry? ::
      e.path in backup.files && backup.files[e.path] == e.bytes
    ensures io.Willing() && (forall e | e in entries :: Untouched(e, world, old(io.calls))) ==> error.None?
  {
    hide NoPathTwice, Grounded, Untouched, Stamped, Recorded;
    error := None;
    backup := new BackupTree();
    for k := 0 to |entries|
      invariant error.None? && fresh(backup) && backup.files == map[] && io.calls >= old(io.calls)
      invariant backup.dirs == {[]} + DirectoryPaths(entries[..k])
    {
      EntryStep(entries, k);
      if entries[k].DirectoryEntry? {
        DirectoryIsFree(entries, k);
        UntouchedLater(entries[k], world, old(io.calls), io.calls);
        error := backup.MakeDirectory(io, world, entries[k]);
        if error.Some? { return; }
      }
    }
    assert entries[..|entries|] == entries;
    error := CopyFiles(io, entries, world, when, old(io.calls), backup);
  }

  lemma UntouchedLater(e: Entry, world: World, now: nat, later: nat)
    requires now <= later
    ensures Untouched(e, world, now) ==> Untouched(e, world, later)
  {
  }

  method CopyFiles(io: Io, entries: seq<Entry>, world: World, ghost when: Path -> nat, ghost began: nat,
                   backup: BackupTree)
    returns (error: Option<BackupError>)
    requires NoPathTwice(entries) && Grounded(entries) && Witnessed(entries, world, when, io.calls)
    requires backup.dirs == {[]} + DirectoryPaths(entries) && backup.files == map[] && began <= io.calls
    modifies backup, io`calls
    ensures backup.dirs == old(backup.dirs) && (error.None? ==> backup.files.Keys == FilePaths(entries))
    ensures error.None? ==> forall e | e in entries && e.FileEntry? ::
      e.path in backup.files && backup.files[e.path] == e.bytes
    ensures io.Willing() && (forall e | e in entries :: Untouched(e, world, began)) ==> error.None?
  {
    hide NoPathTwice, Grounded, Untouched, Stamped, Recorded;
    error := None;
    for k := 0 to |entries|
      invariant error.None? && backup.dirs == old(backup.dirs) && io.calls >= old(io.calls)
      invariant backup.files.Keys == FilePaths(entries[..k])
      invariant forall e | e in entries[..k] && e.FileEntry? ::
        e.path in backup.files && backup.files[e.path] == e.bytes
    {
      EntryStep(entries, k);
      if entries[k].FileEntry? {
        FileIsFree(entries, k);
        assert entries[k] in entries;
        UntouchedLater(entries[k], world, began, io.calls);
        error := backup.CopyFile(io, world, entries[k], when(entries[k].path));
        if error.Some? { return; }
      }
    }
    assert entries[..|entries|] == entries;
  }

  lemma EntryStep(entries: seq<Entry>, k: nat)
    requires k < |entries|
    ensures var e := entries[k];
      && DirectoryPaths(entries[..k + 1]) == DirectoryPaths(entries[..k]) + (if e.DirectoryEntry? then {e.path} else {})
      && FilePaths(entries[..k + 1]) == FilePaths(entries[..k]) + (if e.FileEntry? then {e.path} else {})
      && (forall x :: x in entries[..k + 1] <==> x in entries[..k] || x == e)
  {
    assert entries[..k + 1] == entries[..k] + [entries[k]];
  }

  lemma DirectoryIsFree(entries: seq<Entry>, k: nat)
    requires NoPathTwice(entries) && Grounded(entries) && k < |entries|
    ensures entries[k].path != [] && entries[k].path !in DirectoryPaths(entries[..k])
    ensures Parent(entries[k].path) in {[]} + DirectoryPaths(entries[..k])
  {
    if Parent(entries[k].path) != [] {
      var j :| 0 <= j < k && IsParent(entries[j], entries[k]);
      assert entries[..k][j] == entries[j];
    }
  }

  lemma FileIsFree(entries: seq<Entry>, k: nat)
    requires NoPathTwice(entries) && Grounded(entries) && k < |entries| && entries[k].FileEntry?
    ensures entries[k].path != [] && entries[k].path !in DirectoryPaths(entries)
    ensures entries[k].path !in FilePaths(entries[..k])
    ensures Parent(entries[k].path) in {[]} + DirectoryPaths(entries)
    ensures forall x | x in entries[..k] :: x.path != entries[k].path
  {
    DirectoryIsFree(entries, k);
    hide Grounded;
    assert forall x | x in entries[..k] :: x in entries;
    forall x | x in entries && x.path == entries[k].path ensures x == entries[k] {
      var i :| 0 <= i < |entries| && entries[i] == x;
    }
    forall x | x in entries[..k] ensures x.path != entries[k].path {
      var i :| 0 <= i < k && entries[..k][i] == x;
      assert entries[i] == x;
    }
  }

  // ---- The whole ----

  /** The backup holds what the tree of nodes holds, outside the directory that is left out. */
  ghost predicate Mirrors(dirs: set<Path>, files: map<Path, seq<byte>>, root: Path, node: Node) {
    forall rel: Path, target: Node | At(node, rel, target) && !target.Other? && !Hidden(root + rel) ::
      if target.Directory? then root + rel in dirs else root + rel in files && files[root + rel] == target.bytes
  }

  /** Everything in the backup comes from that tree or is one of the two other files. */
  ghost predicate MirrorsOnly(dirs: set<Path>, files: map<Path, seq<byte>>, runtime: Node) {
    forall p | (p in dirs && p != []) || p in files ::
      p == [".env"] || p == [".env.runtime"]
      || exists rel, target :: At(runtime, rel, target) && p == RUNTIME + rel && !Hidden(p)
  }

  lemma InventoryMirrors(env: Node, runtimeEnv: Node, runtime: Node, dirs: set<Path>, files: map<Path, seq<byte>>)
    requires env.Leaf? && runtimeEnv.Leaf? && runtime.Directory?
    requires var entries := Inventory(env, runtimeEnv, runtime);
      dirs == {[]} + DirectoryPaths(entries) && files.Keys == FilePaths(entries)
      && forall e | e in entries && e.FileEntry? :: e.path in files && files[e.path] == e.bytes
    ensures Mirrors(dirs, files, RUNTIME, runtime) && MirrorsOnly(dirs, files, runtime)
    ensures [".env"] in files && files[[".env"]] == env.bytes
    ensures [".env.runtime"] in files && files[[".env.runtime"]] == runtimeEnv.bytes
  {
    hide Listing;
    var entries := Inventory(env, runtimeEnv, runtime);
    LeafListing(env, [".env"]);
    LeafListing(runtimeEnv, [".env.runtime"]);
    assert EntryOf([".env"], env) in entries && EntryOf([".env.runtime"], runtimeEnv) in entries;
    forall rel: Path, target: Node | At(runtime, rel, target) && !target.Other? && !Hidden(RUNTIME + rel)
      ensures if target.Directory? then RUNTIME + rel in dirs
              else RUNTIME + rel in files && files[RUNTIME + rel] == target.bytes
    {
      ListsEverything(runtime, RUNTIME, rel, target);
      assert EntryOf(RUNTIME + rel, target) in entries;
    }
    forall p | ((p in dirs && p != []) || p in files) && p != [".env"] && p != [".env.runtime"]
      ensures exists rel, target :: At(runtime, rel, target) && p == RUNTIME + rel && !Hidden(p)
    {
      var e :| e in entries && e.path == p;
      assert e in Listing(runtime, RUNTIME);
      var rel, target := ListsNothingElse(runtime, RUNTIME, e);
    }
  }

  /** The stocktaking and the copy. Without an error the backup holds exactly what `.env`, `.env.runtime` and
      `runtime` outside `runtime/m4` held when the walk looked at them; and all of it is ordinary and within
      the limits. With ordinary sources within the limits that nothing changes, and calls that work, there is
      no error. */
  method BackUpConfiguration(io: Io, env: Node, runtimeEnv: Node, runtime: Node, maxBytes: nat, maxFiles: nat,
                             world: World, ghost when: Path -> nat)
    returns (error: Option<BackupError>, backup: BackupTree?)
    requires DistinctNames(runtime)
    requires Witnessed(Inventory(env, runtimeEnv, runtime), world, when, io.calls)
    modifies io`calls
    ensures error.None? ==> backup != null && Acceptable(env, runtimeEnv, runtime, maxBytes, maxFiles)
    ensures error.None? ==>
      && Mirrors(backup.dirs, backup.files, RUNTIME, runtime) && MirrorsOnly(backup.dirs, backup.files, runtime)
      && [".env"] in backup.files && backup.files[[".env"]] == env.bytes
      && [".env.runtime"] in backup.files && backup.files[[".env.runtime"]] == runtimeEnv.bytes
    ensures
      (&& io.Willing() && Acceptable(env, runtimeEnv, runtime, maxBytes, maxFiles)
       && (forall e | e in Inventory(env, runtimeEnv, runtime) :: Untouched(e, world, old(io.calls)))) ==> error.None?
  {
    hide Listing, Mirrors, MirrorsOnly, Witnessed, Untouched, TotalBytes, TotalFiles;
    backup := null;
    var entries, bytes, files;
    error, entries, bytes, files := InspectConfiguration(env, runtimeEnv, runtime, maxBytes, maxFiles);
    if error.Some? { return; }
    InventoryOrdered(env, runtimeEnv, runtime);
    error, backup := CreateBackup(io, entries, world, when);
    if error.None? { InventoryMirrors(env, runtimeEnv, runtime, backup.dirs, backup.files); }
  }
}
