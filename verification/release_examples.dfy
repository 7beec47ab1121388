/** Releases that pass every check and still do not end well: each with the live tree, the manifest on it and
    the archive that the installer would be given, and with the call carried out. */
module ReleaseExamples {
  import opened Wrappers
  import opened Paths
  import opened FileSystem
  import opened ReleaseSpec
  import opened RollbackNames
  import opened InstallSteps
  import opened ReleaseInstaller
  import opened ReleasePlan
  import opened ReleaseInstall

  // ---- A host and an archive ----

  const DIRECTORIES: seq<Path> := [["deploy"], ["deploy", "tmpfiles.d"], ["scripts"]]
  const DATA: Path := ["var", "agent-memory-fabric"]
  const TEMPORARY: Path := [".tmp"]

  predicate Ours(s: string) {
    s == "a" || s == "x" || s == "stale" || s == "manifest"
  }

  function Zeros(n: nat): string {
    if n == 0 then "" else "0" + Zeros(n - 1)
  }

  function Digests(p: Path): string {
    Zeros(64)
  }

  function Hashes(c: Content): string {
    Zeros(64)
  }

  /** What the first release has left on the host. */
  function Installed(paths: seq<Path>): map<Path, File> {
    map p | p in paths :: File(30, Data([2]))
  }

  function Standing(paths: seq<Path>): map<Path, nat> {
    map d | d in paths :: 31
  }

  function Unpacked(paths: seq<Path>): map<Path, File> {
    map p | p in paths :: File(20, Data([1]))
  }

  function Made(paths: seq<Path>): map<Path, nat> {
    (map d | d in paths :: 21)[[] := 21]
  }

  /** A host on which a release is installed: its manifest lists the required files, which are there, and
      `extra`; besides them and the persistent paths there are `files` and `dirs`. */
  function Host(extra: Path, files: map<Path, File>, dirs: map<Path, nat>): Tree {
    Tree(map[[".env"] := File(1, Data([])), [".env.runtime"] := File(2, Data([])),
             MANIFEST := File(3, ManifestOf("first", Listing(extra), Digests))] + Installed(REQUIRED_FILES) + files,
         map[[] := 4, ["runtime"] := 5, ["var"] := 6, DATA := 7] + Standing(DIRECTORIES) + dirs)
  }

  function Listing(extra: Path): seq<Path> {
    Sort(REQUIRED_FILES + [extra])
  }

  predicate KeptFile(p: Path) {
    p == [".env"] || p == [".env.runtime"] || p == MANIFEST
  }

  predicate KeptDirectory(d: Path) {
    d == ["runtime"] || d == ["var"] || d == DATA
  }

  /** A release root like that, whichever inodes and contents it has, and an archive that holds `entry` besides
      the required files. */
  datatype Scene = Scene(live: Tree, revision: string, extra: Path, files: map<Path, File>, dirs: map<Path, nat>,
                         entry: Path) {
    function Listed(): seq<Path> {
      Listing(extra)
    }

    function Live(): Tree {
      live
    }

    function Files(): seq<Path> {
      REQUIRED_FILES + [entry]
    }

    function Directories(): seq<Path> {
      if |entry| == 2 then DIRECTORIES + [entry[..1]] else DIRECTORIES
    }

    function Shipment(): Archive {
      Archive(Tree(Unpacked(Files()), Made(Directories())), JoinAll(Files()), Files(), Directories())
    }

    function Call(hooks: set<Point>): Request {
      Request(Shipment(), "second", false, false, TEMPORARY, Hashes, Data([]), hooks)
    }

    predicate Small(p: Path) {
      1 <= |p| <= 2 && Ours(p[0]) && CodePath(p)
    }

    /** The pieces fit together. */
    ghost predicate Fits() {
      Named() && Stands()
    }

    ghost predicate Stands() {
      && (forall p | p in live.files :: p in files || p in REQUIRED_FILES || KeptFile(p))
      && (forall p | p in files :: p in live.files && live.files[p] == files[p])
      && (forall p | p in REQUIRED_FILES || KeptFile(p) :: p in live.files)
      && live.files[MANIFEST].content == ManifestOf(revision, Listed(), Digests)
      && (forall d | d in live.dirs :: d == [] || d in DIRECTORIES || d in dirs || KeptDirectory(d))
      && (forall d | d == [] || d in DIRECTORIES || d in dirs || KeptDirectory(d) :: d in live.dirs)
    }

    predicate Named() {
      && Small(entry) && entry !in dirs && entry[..1] !in files - {entry}
      && Small(extra) && extra !in dirs && extra[..1] !in files - {extra}
      && (forall d | d in dirs :: |d| == 1 && Ours(d[0]) && d !in files)
      && (forall p | p in files :: Small(p) && (|p| == 2 ==> p[..1] in dirs))
    }
  }

  /** The first segments of the required files. */
  predicate Theirs(s: string) {
    || s == "Dockerfile" || s == "compose.agent-memory-fabric.yml" || s == "package.json"
    || s == "deploy" || s == "scripts"
  }

  /** The first segments of the persistent paths and of the manifest. */
  predicate Kept(s: string) {
    s in PROTECTED_ROOTS
  }

  lemma OursAreOther(s: string)
    requires Ours(s)
    ensures !Kept(s) && s != TEMPORARY[0] && s != MANIFEST_NAME + ".tmp"
    ensures !Theirs(s)
  {
    assert |MANIFEST_NAME| == 26;
    assert s[0] in {'a', 'x', 's', 'm'};
    assert "scripts"[1] == 'c' && (s[0] == 's' ==> s[1] == 't');
  }

  lemma RequiredTop(i: nat)
    requires i < 3
    ensures CodePath(REQUIRED_FILES[i]) && Theirs(REQUIRED_FILES[i][0]) && |REQUIRED_FILES[i]| == 1
  {
  }

  lemma RequiredConf()
    ensures CodePath(REQUIRED_FILES[3]) && Theirs(REQUIRED_FILES[3][0]) && Parent(REQUIRED_FILES[3]) in DIRECTORIES
  {
    assert REQUIRED_FILES[3][..2] == DIRECTORIES[1];
  }

  lemma RequiredScript()
    ensures CodePath(REQUIRED_FILES[4]) && Theirs(REQUIRED_FILES[4][0]) && Parent(REQUIRED_FILES[4]) in DIRECTORIES
  {
    assert REQUIRED_FILES[4][..1] == DIRECTORIES[2];
  }

  lemma TheirDirectory(i: nat)
    requires i < 3
    ensures CodePath(DIRECTORIES[i]) && Theirs(DIRECTORIES[i][0]) && DIRECTORIES[i] !in REQUIRED_FILES
    ensures Parent(DIRECTORIES[i]) == [] || Parent(DIRECTORIES[i]) in DIRECTORIES
  {
    assert DIRECTORIES[1][..1] == DIRECTORIES[0];
    assert "deploy"[1] == 'e' && "scripts"[1] == 'c' && "Dockerfile"[0] == 'D' && "package.json"[0] == 'p';
  }

  lemma RequiredDistinct()
    ensures NoRepeats(REQUIRED_FILES) && NoRepeats(DIRECTORIES) && |REQUIRED_FILES| == 5
  {
    assert "deploy"[0] == 'd' && "scripts"[0] == 's' && "Dockerfile"[0] == 'D' && "package.json"[0] == 'p';
    assert "compose.agent-memory-fabric.yml"[0] == 'c';
  }

  /** A required path or directory. */
  lemma TheirPath(p: Path)
    requires p in REQUIRED_FILES || p in DIRECTORIES
    ensures p != [] && CodePath(p) && Theirs(p[0])
    ensures p in REQUIRED_FILES <==> p !in DIRECTORIES
    ensures Parent(p) == [] || Parent(p) in DIRECTORIES
  {
    hide CodePath, Theirs;
    RequiredDistinct();
    if p in DIRECTORIES {
      var i :| 0 <= i < |DIRECTORIES| && DIRECTORIES[i] == p;
      TheirDirectory(i);
    } else {
      var i :| 0 <= i < |REQUIRED_FILES| && REQUIRED_FILES[i] == p;
      if i < 3 { RequiredTop(i); } else if i == 3 { RequiredConf(); } else { RequiredScript(); }
    }
    NotTheRoot(p);
  }

  /** What lies above a required path is one of the required directories. */
  lemma {:induction false} TheirAncestor(p: Path, k: nat)
    requires (p in REQUIRED_FILES || p in DIRECTORIES) && 0 < k < |p|
    ensures p[..k] in DIRECTORIES
    decreases |p|
  {
    TheirPath(p);
    hide CodePath, Theirs;
    if k < |p| - 1 {
      TheirAncestor(Parent(p), k);
      assert Parent(p)[..k] == p[..k];
    } else {
      assert Parent(p) == p[..k] && p[..k] != [];
    }
  }

  /** Everything in the archive has a release path, and its parent is a directory of the archive. */
  lemma NodePath(scene: Scene, p: Path)
    requires scene.Fits() && (p in scene.Files() || p in scene.Directories())
    ensures p != [] && CodePath(p) && Normal(p)
    ensures p in scene.Files() <==> p !in scene.Directories()
    ensures Parent(p) == [] || Parent(p) in scene.Directories()
    ensures p[0] == scene.entry[0] || Theirs(p[0])
  {
    hide CodePath, Normal, Theirs, Ours;
    if p in REQUIRED_FILES || p in DIRECTORIES {
      TheirPath(p);
      EntryPath(scene, scene.entry);
      if |scene.entry| == 2 { EntryPath(scene, scene.entry[..1]); }
    } else {
      EntryPath(scene, p);
      assert |scene.entry| == 2 && p == scene.entry ==> Parent(p) == scene.entry[..1];
      assert p == scene.entry ==> p !in DIRECTORIES;
    }
    CodePathIsNormal(p);
  }

  lemma ListsAreDistinct(scene: Scene)
    requires scene.Fits()
    ensures NoRepeats(scene.Files()) && NoRepeats(scene.Directories())
  {
    hide CodePath, Theirs;
    RequiredDistinct();
    EntryPath(scene, scene.entry);
    if scene.entry in REQUIRED_FILES { TheirPath(scene.entry); }
    if |scene.entry| == 2 {
      EntryPath(scene, scene.entry[..1]);
      if scene.entry[..1] in DIRECTORIES { TheirPath(scene.entry[..1]); }
    }
    AppendedDistinct(REQUIRED_FILES, scene.entry);
    if |scene.entry| == 2 { AppendedDistinct(DIRECTORIES, scene.entry[..1]); }
  }

  lemma AppendedDistinct(paths: seq<Path>, p: Path)
    requires NoRepeats(paths)
    ensures p !in paths ==> NoRepeats(paths + [p])
  {
  }

  /** The archive is one: a tree, listed without repeats, of release paths. */
  lemma ShipmentIsListed(scene: Scene)
    requires scene.Fits()
    ensures scene.Shipment().Listed()
    ensures forall p | Exists(scene.Shipment().tree, p) && p != [] :: CodePath(p)
  {
    hide CodePath, Normal, Scene.Files, Scene.Directories, Scene.Fits, NoRepeats;
    var t := scene.Shipment().tree;
    ListsAreDistinct(scene);
    forall p | p in scene.Files() || p in scene.Directories()
      ensures p != [] && CodePath(p) && Normal(p) && Parent(p) in t.dirs
      ensures p in scene.Files() <==> p !in scene.Directories()
    {
      NodePath(scene, p);
    }
    RootIsNormal();
  }

  lemma RootIsNormal()
    ensures Normal([])
  {
  }

  lemma CodePathIsNormal(p: Path)
    requires CodePath(p)
    ensures Normal(p)
  {
  }

  lemma EntryPath(scene: Scene, p: Path)
    requires scene.Fits() && (p == scene.entry || (|scene.entry| == 2 && p == scene.entry[..1]))
    ensures p != [] && CodePath(p) && p[0] == scene.entry[0] && !Theirs(p[0])
    ensures Parent(p) == [] || Parent(p) == scene.entry[..1]
  {
    OursAreOther(scene.entry[0]);
    assert scene.entry[..1][0] in scene.entry;
    assert |scene.entry| == 2 ==> Parent(scene.entry) == scene.entry[..1];
  }

  // ---- The checks ----

  lemma {:induction false} JoinedListing(paths: seq<Path>)
    requires forall p | p in paths :: p != [] && Normal(p) && CodePath(p)
    ensures FirstError(JoinAll(paths)).None? && NormalizedNames(JoinAll(paths)) == JoinAll(paths)
  {
    hide Join, CodePath, Normal, NormalizedEntry;
    if paths != [] {
      assert paths[0] in paths && forall p | p in paths[1..] :: p in paths;
      NormalizerFixesExactlyTheCodePaths(paths[0]);
      JoinedListing(paths[1..]);
      assert JoinAll(paths) == [Join(paths[0])] + JoinAll(paths[1..]);
    }
  }

  lemma JoinedDistinct(paths: seq<Path>)
    requires NoRepeats(paths) && forall p | p in paths :: CodePath(p)
    ensures NoRepeats(JoinAll(paths))
  {
    hide Join, CodePath, Split;
    var names := JoinAll(paths);
    forall i, j | 0 <= i < j < |names| ensures names[i] != names[j] {
      CodePathSplits(paths[i]);
      CodePathSplits(paths[j]);
    }
  }

  lemma {:induction false} ZerosAreDigits(n: nat)
    ensures |Zeros(n)| == n && forall c | c in Zeros(n) :: c == '0'
  {
    if n > 0 { ZerosAreDigits(n - 1); }
  }

  lemma DigestsAreFine()
    ensures (forall p :: Sha256(Digests(p))) && forall c :: Sha256(Hashes(c))
  {
    ZerosAreDigits(64);
  }

  /** What the scene adds to the persistent paths has other names. */
  lemma AddedNames(scene: Scene, p: Path)
    requires scene.Fits() && (p in scene.files || p in scene.dirs)
    ensures p != [] && !Kept(p[0]) && !Theirs(p[0]) && p[0] != TEMPORARY[0] && p[0] != MANIFEST_NAME + ".tmp"
  {
    hide CodePath, Theirs;
    OursAreOther(p[0]);
  }

  /** The files on the host are the persistent ones, the manifest, the required ones and those of the scene. */
  lemma LiveFiles(scene: Scene)
    requires scene.Fits()
    ensures forall p | p in scene.Live().files && p !in scene.files ::
      p in REQUIRED_FILES || (|p| == 1 && Kept(p[0]))
    ensures forall p | p in scene.files :: p in scene.Live().files && scene.Live().files[p] == scene.files[p]
    ensures forall p | p in REQUIRED_FILES :: p in scene.Live().files
    ensures [".env"] in scene.Live().files && [".env.runtime"] in scene.Live().files
    ensures MANIFEST in scene.Live().files
    ensures scene.Live().files[MANIFEST].content == ManifestOf(scene.revision, scene.Listed(), Digests)
  {
    hide Theirs, ManifestOf, Scene.Listed, Scene.Named, REQUIRED_FILES, DIRECTORIES, Ours, Kept, KeptDirectory;
    forall p | KeptFile(p) ensures |p| == 1 && Kept(p[0]) { KeptFileNoDirectory(p); }
    assert KeptFile([".env"]) && KeptFile([".env.runtime"]) && KeptFile(MANIFEST);
  }

  lemma LiveDirectories(scene: Scene)
    requires scene.Fits()
    ensures forall d | d in scene.Live().dirs && d !in scene.dirs ::
      d == [] || d in DIRECTORIES || (Kept(d[0]) && (d == ["runtime"] || d == ["var"] || d == DATA))
    ensures [] in scene.Live().dirs && ["runtime"] in scene.Live().dirs && ["var"] in scene.Live().dirs
    ensures DATA in scene.Live().dirs && forall d | d in scene.dirs || d in DIRECTORIES :: d in scene.Live().dirs
  {
    hide Scene.Named, ManifestOf, Scene.Listed, REQUIRED_FILES, DIRECTORIES, KeptFile;
    assert KeptDirectory(["runtime"]) && KeptDirectory(["var"]) && KeptDirectory(DATA);
  }

  /** The host of a scene with proper names. */
  lemma HostStands(scene: Scene)
    requires scene.Named() && scene.live == Host(scene.extra, scene.files, scene.dirs) && scene.revision == "first"
    ensures scene.Fits()
  {
    hide Host, ManifestOf, Scene.Listed, Scene.Named, REQUIRED_FILES, DIRECTORIES, KeptFile, KeptDirectory;
    HostFiles(scene);
    HostDirectories(scene);
  }

  lemma HostFiles(scene: Scene)
    requires scene.Named() && scene.live == Host(scene.extra, scene.files, scene.dirs)
    ensures forall p :: p in scene.live.files <==> p in scene.files || p in REQUIRED_FILES || KeptFile(p)
    ensures forall p | p in scene.files :: scene.live.files[p] == scene.files[p]
    ensures MANIFEST in scene.live.files
    ensures scene.live.files[MANIFEST].content == ManifestOf("first", scene.Listed(), Digests)
  {
    hide ManifestOf, Listing, Scene.Named, REQUIRED_FILES, DIRECTORIES, KeptFile;
    var kept := map[[".env"] := File(1, Data([])), [".env.runtime"] := File(2, Data([])),
                    MANIFEST := File(3, ManifestOf("first", Listing(scene.extra), Digests))];
    LiveUnion(scene, kept);
    KeptMap(kept, File(3, ManifestOf("first", Listing(scene.extra), Digests)));
    NameIsApart(scene, MANIFEST);
  }

  lemma KeptMap(kept: map<Path, File>, manifest: File)
    requires kept == map[[".env"] := File(1, Data([])), [".env.runtime"] := File(2, Data([])), MANIFEST := manifest]
    ensures forall p :: p in kept <==> KeptFile(p)
    ensures KeptFile(MANIFEST) && kept[MANIFEST] == manifest
  {
  }

  lemma LiveUnion(scene: Scene, kept: map<Path, File>)
    requires scene.live.files == kept + Installed(REQUIRED_FILES) + scene.files
    ensures forall p :: p in scene.live.files <==> p in kept || p in REQUIRED_FILES || p in scene.files
    ensures forall p | p in scene.files :: scene.live.files[p] == scene.files[p]
    ensures forall p | p in kept && p !in REQUIRED_FILES && p !in scene.files :: scene.live.files[p] == kept[p]
  {
    hide REQUIRED_FILES;
  }

  lemma HostDirectories(scene: Scene)
    requires scene.live == Host(scene.extra, scene.files, scene.dirs)
    ensures forall d :: d in scene.live.dirs <==> d == [] || d in DIRECTORIES || d in scene.dirs || KeptDirectory(d)
  {
    hide ManifestOf, Listing, REQUIRED_FILES, DIRECTORIES;
  }

  lemma NameIsApart(scene: Scene, p: Path)
    requires scene.Named() && (KeptFile(p) || p in REQUIRED_FILES)
    ensures p !in scene.files && (KeptFile(p) ==> p !in REQUIRED_FILES)
  {
    if KeptFile(p) { KeptFileNoDirectory(p); }
    KeptNames();
    hide CodePath, Theirs, Kept, REQUIRED_FILES, Ours, KeptFile;
    if p in scene.files { OursAreOther(p[0]); }
    if p in REQUIRED_FILES { TheirPath(p); }
  }

  lemma KeptFileNoDirectory(p: Path)
    requires p == [".env"] || p == [".env.runtime"] || p == MANIFEST
    ensures p != ["runtime"] && p != ["var"] && p != DATA && p != [] && Kept(p[0])
  {
    assert p[0][0] == '.' && "runtime"[0] == 'r' && "var"[0] == 'v';
  }

  lemma KeptFiles(scene: Scene, p: Path)
    requires scene.Fits() && p in scene.Live().files && p !in scene.files && p !in REQUIRED_FILES
    ensures p == [".env"] || p == [".env.runtime"] || p == MANIFEST
  {
    hide Scene.Named, ManifestOf, Scene.Listed, REQUIRED_FILES;
  }

  /** The manifest lists the required files and the extra one, in order and once each. */
  lemma ListedAre(scene: Scene)
    requires scene.Fits()
    ensures Ascending(scene.Listed()) && NoRepeats(scene.Listed())
    ensures forall p :: p in scene.Listed() <==> p in REQUIRED_FILES || p == scene.extra
    ensures forall p | p in scene.Listed() :: p != [] && CodePath(p)
    ensures scene.extra !in REQUIRED_FILES
  {
    hide CodePath, Theirs, REQUIRED_FILES, Sort, Ascending, Normal;
    RequiredDistinct();
    OursAreOther(scene.extra[0]);
    if scene.extra in REQUIRED_FILES { TheirPath(scene.extra); }
    AppendedDistinct(REQUIRED_FILES, scene.extra);
    var paths := REQUIRED_FILES + [scene.extra];
    forall p | p in paths ensures p != [] && CodePath(p) && SlashFree(p) {
      if p != scene.extra { TheirPath(p); }
      CodePathIsNormal(p);
      NormalIsSlashFree(p);
    }
    SortSorts(paths);
    AscendingDistinct(scene.Listed());
  }

  lemma NormalIsSlashFree(p: Path)
    requires Normal(p)
    ensures SlashFree(p)
  {
  }

  lemma AscendingDistinct(paths: seq<Path>)
    requires Ascending(paths)
    ensures NoRepeats(paths)
  {
    hide Join, Less;
    forall i, j | 0 <= i < j < |paths| ensures paths[i] != paths[j] {
      LessTotal(Join(paths[i]), Join(paths[j]));
    }
  }

  lemma ListedReadsBack(scene: Scene)
    requires scene.Fits()
    ensures ReadPreviousManifest(scene.Live()) == Success(scene.Listed())
  {
    hide Sha256, Join, ManifestOf, ReadManifest, Theirs, Kept, Scene.Live, CodePath, Scene.Listed, REQUIRED_FILES;
    DigestsAreFine();
    ListedAre(scene);
    WrittenReadsBack(scene.revision, scene.Listed(), Digests);
    LiveFiles(scene);
    LiveIsTree(scene);
  }

  lemma LiveIsTree(scene: Scene)
    requires scene.Fits()
    ensures WellFormed(scene.Live()) && Identities(scene.Live()).Some? && MANIFEST !in scene.Live().dirs
    ensures [MANIFEST_NAME + ".tmp"] !in scene.Live().dirs && !Exists(scene.Live(), TEMPORARY)
  {
    hide CodePath, Ours, Theirs, Kept, Scene.Live, ManifestOf, Scene.Fits, REQUIRED_FILES, DIRECTORIES;
    var t := scene.Live();
    LiveFiles(scene);
    LiveDirectories(scene);
    KeptNames();
    forall p | p in scene.files || p in scene.dirs || p in REQUIRED_FILES || p in DIRECTORIES
      ensures p != [] && !Kept(p[0]) && p[0] != TEMPORARY[0] && p[0] != MANIFEST_NAME + ".tmp"
    {
      if p in REQUIRED_FILES || p in DIRECTORIES { TheirPath(p); } else { AddedNames(scene, p); }
    }
    forall p | p in t.files ensures p != [] && p !in t.dirs && Parent(p) in t.dirs { FileStands(scene, p); }
    forall d | d in t.dirs && d != [] ensures Parent(d) in t.dirs { DirectoryStands(scene, d); }
    assert ["runtime", "m4"] !in t.files;
  }

  /** A file has no directory at its place and one above it. */
  lemma FileStands(scene: Scene, p: Path)
    requires scene.Fits() && p in scene.Live().files
    ensures p != [] && p !in scene.Live().dirs && Parent(p) in scene.Live().dirs
  {
    hide CodePath, Ours, Theirs, Scene.Live, ManifestOf, REQUIRED_FILES, DIRECTORIES, Kept;
    LiveFiles(scene);
    LiveDirectories(scene);
    KeptNames();
    if p in scene.files {
      AddedNames(scene, p);
      assert |p| == 2 ==> Parent(p) == p[..1];
      assert |p| == 1 ==> Parent(p) == [];
      if p in DIRECTORIES { TheirPath(p); }
    } else if p in REQUIRED_FILES {
      TheirPath(p);
      if p in scene.dirs { AddedNames(scene, p); }
    } else {
      KeptFiles(scene, p);
      KeptFileNoDirectory(p);
      if p in scene.dirs { AddedNames(scene, p); }
      if p in DIRECTORIES { TheirPath(p); }
      assert Parent(p) == [];
    }
  }

  lemma DirectoryStands(scene: Scene, d: Path)
    requires scene.Fits() && d in scene.Live().dirs && d != []
    ensures Parent(d) in scene.Live().dirs
  {
    hide CodePath, Ours, Theirs, Scene.Live, ManifestOf, REQUIRED_FILES, DIRECTORIES, Kept;
    LiveDirectories(scene);
    if d in DIRECTORIES { TheirPath(d); }
    assert Parent(DATA) == ["var"] && Parent(["var"]) == [] && Parent(["runtime"]) == [];
    assert d in scene.dirs ==> Parent(d) == [];
  }

  lemma KeptNames()
    ensures Kept("runtime") && Kept("var") && !Kept(TEMPORARY[0]) && !Kept(MANIFEST_NAME + ".tmp")
    ensures forall s | Theirs(s) :: !Kept(s) && s != TEMPORARY[0] && s != MANIFEST_NAME + ".tmp"
  {
    assert |MANIFEST_NAME| == 26;
    forall s | Theirs(s) ensures s[0] in {'D', 'c', 'p', 'd', 's'} {}
  }

  predicate Required(p: Path) {
    p in REQUIRED_FILES || p in DIRECTORIES
  }

  /** The required paths stand where they belong, and nothing else meets them. */
  lemma RequiredFits(scene: Scene, p: Path)
    requires scene.Fits() && Required(p)
    ensures ClearAbove(scene.Live(), p) && (p in REQUIRED_FILES ==> p !in scene.Live().dirs)
    ensures p in DIRECTORIES ==> p !in scene.Live().files
  {
    LiveFiles(scene);
    LiveDirectories(scene);
    LiveIsTree(scene);
    KeptNames();
    TheirPath(p);
    forall q | q in scene.files || q in scene.dirs ensures q != [] && !Theirs(q[0]) { AddedNames(scene, q); }
    hide CodePath, Ours, Theirs, Kept, Scene.Live, Scene.Fits, REQUIRED_FILES, DIRECTORIES, Identities;
    forall k | 0 < k < |p| ensures p[..k] !in scene.Live().files {
      TheirAncestor(p, k);
      TheirPath(p[..k]);
      assert p[..k] in scene.Live().dirs;
    }
  }

  /** The others are short, and no file stands above them. */
  lemma OursFits(scene: Scene, p: Path)
    requires scene.Fits() && 1 <= |p| <= 2 && Ours(p[0]) && p !in scene.dirs && (|p| == 2 ==> p[..1] !in scene.files)
    ensures ClearAbove(scene.Live(), p) && p !in scene.Live().dirs
  {
    LiveFiles(scene);
    LiveDirectories(scene);
    OursAreOther(p[0]);
    forall q | q in REQUIRED_FILES || q in DIRECTORIES ensures q != [] && Theirs(q[0]) { TheirPath(q); }
    hide CodePath, Ours, Theirs, Kept, Scene.Live, Scene.Fits, REQUIRED_FILES, DIRECTORIES;
    forall k | 0 < k < |p| ensures p[..k] !in scene.Live().files { assert k == 1 && p[..1][0] == p[0]; }
  }

  lemma EntryDirectoryFits(scene: Scene)
    requires scene.Fits() && |scene.entry| == 2
    ensures ClearAbove(scene.Live(), scene.entry[..1]) && scene.entry[..1] !in scene.Live().files
    ensures scene.entry[..1] in scene.Directories()
  {
    LiveFiles(scene);
    OursAreOther(scene.entry[0]);
    forall q | q in REQUIRED_FILES ensures q != [] && Theirs(q[0]) { TheirPath(q); }
    hide CodePath, Ours, Theirs, Kept, Scene.Live, REQUIRED_FILES, DIRECTORIES;
    assert scene.entry[..1][0] == scene.entry[0] && scene.entry[..1] != scene.entry;
  }

  lemma NodesAre(scene: Scene, p: Path)
    requires p in scene.Files() || p in scene.Directories()
    ensures Required(p) || p == scene.entry || (|scene.entry| == 2 && p == scene.entry[..1])
  {
  }

  /** A path of the archive or of the manifest does not meet a file on the way, nor a directory at its place. */
  lemma SceneFits(scene: Scene, p: Path)
    requires scene.Fits() && (p in scene.Files() || p in scene.Directories() || p in scene.Listed())
    ensures ClearAbove(scene.Live(), p)
    ensures p in scene.Files() || p in scene.Listed() ==> p !in scene.Live().dirs
    ensures p in scene.Directories() ==> p !in scene.Live().files
  {
    hide CodePath, Ours, Theirs, Kept, Scene.Live, ClearAbove, Scene.Files, Scene.Directories, Normal,
      Scene.Listed, REQUIRED_FILES, DIRECTORIES;
    if p in scene.Files() || p in scene.Directories() { NodesAre(scene, p); }
    ListedAre(scene);
    if Required(p) {
      RequiredFits(scene, p);
      TheirPath(p);
      OursAreOther(scene.extra[0]);
      if p in scene.Files() || p in scene.Directories() { NodePath(scene, p); }
      RequiredNode(scene, p);
    } else if p == scene.entry || p in scene.Listed() {
      assert |p| == 2 ==> p[..1] != p;
      OursFits(scene, p);
      if p == scene.entry { EntryIsFile(scene); } else { ListedNoDirectory(scene, p); }
    } else {
      EntryDirectoryFits(scene);
      NodePath(scene, p);
    }
  }

  lemma RequiredNode(scene: Scene, p: Path)
    ensures p in REQUIRED_FILES ==> p in scene.Files()
    ensures p in DIRECTORIES ==> p in scene.Directories()
  {
  }

  lemma EntryIsFile(scene: Scene)
    requires scene.Fits()
    ensures scene.entry in scene.Files() && scene.entry !in scene.Directories()
  {
    hide CodePath, Normal;
    NodePath(scene, scene.entry);
  }

  lemma ListedNoDirectory(scene: Scene, p: Path)
    requires scene.Fits() && p == scene.extra
    ensures p in scene.Directories() ==> p !in scene.Live().files
  {
    hide CodePath, Ours, Theirs, Kept, Scene.Live, REQUIRED_FILES, DIRECTORIES;
    if p in scene.Directories() {
      NodePath(scene, p);
      if p in DIRECTORIES {
        TheirPath(p);
        OursAreOther(p[0]);
      } else {
        EntryDirectoryFits(scene);
      }
    }
  }

  /** The checks accept the release: it publishes the archive and removes what the manifest lists besides. */
  lemma ScenePlan(scene: Scene)
    requires scene.Fits()
    ensures MakePlan(scene.Live(), scene.Shipment())
      == Success(Plan(Sort(scene.Files()), Without(scene.Listed(), Sort(scene.Files()))))
    ensures forall p :: p in Sort(scene.Files()) <==> p in scene.Files()
    ensures scene.Call({}).Valid(scene.Live())
  {
    hide CodePath, Ours, Theirs, Kept, Scene.Live, ClearAbove, Scene.Fits, Scene.Files, Scene.Directories, WellFormed,
      Identities, ReadPreviousManifest, FirstError, NormalizedNames, Sort, NoRepeats, Normal, MakePlan, Without;
    var live, archive := scene.Live(), scene.Shipment();
    LiveIsTree(scene);
    ListedReadsBack(scene);
    ShipmentIsListed(scene);
    ListsAreDistinct(scene);
    forall p | p in scene.Files() ensures CodePath(p) && Normal(p) && p != [] { NodePath(scene, p); }
    JoinedListing(scene.Files());
    JoinedDistinct(scene.Files());
    forall p | p in scene.Files() || p in scene.Directories() || p in scene.Listed()
      ensures ClearAbove(live, p) && (p in scene.Files() || p in scene.Listed() ==> p !in live.dirs)
      ensures p in scene.Directories() ==> p !in live.files
    {
      SceneFits(scene, p);
    }
    forall r | r in REQUIRED_FILES ensures r in archive.tree.files { RequiredIsShipped(scene, r); }
    NamesFineIff(archive.names);
    PersistentIff(live);
    RequiredIff(archive.tree.files);
    hide NamesFine, PersistentThere, RequiredThere, REQUIRED_FILES;
    assert Plannable(live, archive);
    PlanIff(live, archive);
    SortedListing(scene.Files());
    SceneIsFresh(scene);
  }

  lemma RequiredIsShipped(scene: Scene, r: Path)
    requires r in REQUIRED_FILES
    ensures r in scene.Files()
  {
  }

  lemma SceneIsFresh(scene: Scene)
    requires scene.Fits() && MakePlan(scene.Live(), scene.Shipment()).Success?
    requires MakePlan(scene.Live(), scene.Shipment()).value.stale == Without(scene.Listed(), Sort(scene.Files()))
    ensures FreshName(scene.Live(), scene.Shipment(), MakePlan(scene.Live(), scene.Shipment()).value, TEMPORARY)
  {
    hide CodePath, Ours, Theirs, Kept, Scene.Live, MakePlan, Sort, Scene.Files, Normal, Scene.Directories, WellFormed,
      Identities, Scene.Listed, REQUIRED_FILES, DIRECTORIES, Scene.Fits;
    LiveIsTree(scene);
    forall p | p in scene.Files() || p in scene.Listed() ensures p != [] && p[0] != TEMPORARY[0] {
      FirstSegment(scene, p);
    }
    assert !Protected(TEMPORARY) && TEMPORARY != MANIFEST by { KeptNames(); }
  }

  lemma FirstSegment(scene: Scene, p: Path)
    requires scene.Fits() && (p in scene.Files() || p in scene.Listed())
    ensures p != [] && p[0] != TEMPORARY[0]
  {
    hide CodePath, Normal, Kept, Theirs, Ours, Scene.Files, Scene.Directories, Scene.Listed, REQUIRED_FILES;
    KeptNames();
    OursAreOther(scene.entry[0]);
    OursAreOther(scene.extra[0]);
    ListedAre(scene);
    if p in scene.Files() {
      NodePath(scene, p);
    } else if p != scene.extra {
      TheirPath(p);
    }
  }

  // ---- The job that results ----

  function JobIn(scene: Scene): Job {
    var current := Sort(scene.Files());
    Job(scene.Live(), Unpacked(scene.Files()), current, Without(scene.Listed(), current), TEMPORARY,
        ManifestOf("second", current, Digests))
  }

  lemma SameEntries(current: seq<Path>, digest: Path -> string, other: Path -> string)
    requires forall p | p in current :: digest(p) == other(p)
    ensures EntriesOf(current, digest) == EntriesOf(current, other)
  {
    hide Join;
    assert forall i | 0 <= i < |current| :: current[i] in current;
  }

  /** The installer is given this job. */
  lemma CallHasJob(scene: Scene, hooks: set<Point>)
    requires scene.Fits()
    ensures MakePlan(scene.Live(), scene.Shipment()).Success?
    ensures scene.Call(hooks).Valid(scene.Live()) && scene.Call(hooks).JobFor(scene.Live()) == JobIn(scene)
    ensures JobIn(scene).Admitted()
  {
    hide CodePath, Scene.Live, Scene.Files, Scene.Directories, Scene.Fits, MakePlan, Sort, Without, Job.Admitted,
      Archive.Listed, FreshName, WellFormed;
    ScenePlan(scene);
    ShipmentIsListed(scene);
    LiveIsTree(scene);
    SceneIsFresh(scene);
    var request := scene.Call(hooks);
    PlanAdmits(scene.Live(), scene.Shipment(), TEMPORARY, "second", request.DigestAt);
    CurrentIsSortedListing(scene.Live(), scene.Shipment());
    SameEntries(Sort(scene.Files()), request.DigestAt, Digests);
  }

  /** What remains of a list if all but one of its elements are removed. */
  lemma {:induction false} WithoutAllBut(paths: seq<Path>, removed: seq<Path>, p: Path)
    requires NoRepeats(paths) && forall q | q in paths :: q in removed || q == p
    ensures Without(paths, removed) == if p in paths && p !in removed then [p] else []
  {
    if paths != [] {
      var rest := paths[1..];
      assert paths == [paths[0]] + rest;
      assert forall i | 0 <= i < |rest| :: rest[i] == paths[i + 1];
      WithoutAllBut(rest, removed, p);
    }
  }

  lemma SceneStale(scene: Scene)
    requires scene.Fits() && forall p :: p in Sort(scene.Files()) <==> p in scene.Files()
    ensures JobIn(scene).stale == if scene.extra in scene.Files() then [] else [scene.extra]
  {
    hide CodePath, Scene.Live, Scene.Listed, Sort, Without, REQUIRED_FILES, Ascending;
    ListedAre(scene);
    forall q | q in scene.Listed() ensures q in scene.Files() || q == scene.extra {
      if q in REQUIRED_FILES { RequiredIsShipped(scene, q); }
    }
    WithoutAllBut(scene.Listed(), Sort(scene.Files()), scene.extra);
  }

  /** What the job publishes, removes and finds on the host. */
  lemma JobParts(scene: Scene)
    requires scene.Fits()
    ensures var job := JobIn(scene);
      && job.Admitted()
      && (forall p :: p in job.shipped <==> p in scene.Files())
      && job.stale == (if scene.extra in scene.Files() then [] else [scene.extra])
      && (forall p | job.Target(p) && p in job.before.files ::
            p == MANIFEST || p in REQUIRED_FILES || (p in scene.files && (p == scene.entry || p == scene.extra)))
  {
    hide CodePath, Ours, Theirs, Kept, Scene.Live, MakePlan, Sort, Scene.Files, Normal, Without, Job.Admitted,
      Scene.Directories, Scene.Listed, REQUIRED_FILES, JobIn;
    var job := JobIn(scene);
    CallHasJob(scene, {});
    ScenePlan(scene);
    SceneStale(scene);
    JobShips(scene);
    forall p | job.Target(p) && p in job.before.files && p != MANIFEST
      ensures p in REQUIRED_FILES || (p in scene.files && (p == scene.entry || p == scene.extra))
    {
      TargetIsAdded(scene, p);
    }
  }

  lemma JobShips(scene: Scene)
    ensures forall p :: p in JobIn(scene).shipped <==> p in scene.Files()
    ensures JobIn(scene).before == scene.Live()
  {
  }

  lemma TargetIsAdded(scene: Scene, p: Path)
    requires scene.Fits() && p in scene.Live().files && (p in scene.Files() || p == scene.extra)
    ensures p in REQUIRED_FILES || (p in scene.files && (p == scene.entry || p == scene.extra))
  {
    hide CodePath, Theirs, Scene.Live, Scene.Files, Normal, Scene.Directories, REQUIRED_FILES, DIRECTORIES, Kept;
    LiveFiles(scene);
    OursAreOther(scene.entry[0]);
    OursAreOther(scene.extra[0]);
    if p in scene.Files() {
      NodesAre(scene, p);
      NodePath(scene, p);
      if Required(p) {
        TheirPath(p);
      } else {
        EntryPrefix(scene);
        if |scene.entry| == 2 { EntryDirectoryFits(scene); }
      }
    }
    if p in DIRECTORIES { RequiredNode(scene, p); }
  }

  lemma EntryPrefix(scene: Scene)
    requires scene.Fits()
    ensures scene.entry[..1][0] == scene.entry[0]
  {
  }

  /** Only the names the scene adds can get in each other's way. */
  lemma AddedObstructs(scene: Scene, p: Path, q: Path)
    requires scene.Fits() && JobIn(scene).Obstructs(p, q)
    ensures q == MANIFEST || q == scene.entry || q == scene.extra
    ensures p == MANIFEST || p == scene.entry || p == scene.extra
  {
    hide CodePath, Theirs, Kept, Scene.Live, Scene.Files, Normal, Scene.Directories, Scene.Listed, REQUIRED_FILES,
      DIRECTORIES;
    var job := JobIn(scene);
    ObstructingNames(scene, p, q);
    var added := q == MANIFEST || q == scene.entry || q == scene.extra;
    if p in REQUIRED_FILES { RequiredFirst(scene, p); } else { BackupFirst(scene, p); }
    if !added { RequiredFirst(scene, q); } else { BackupFirst(scene, q); }
    hide JobIn, Job.Admitted, Job.Swept, Job.Backup;
    assert job.Backup(q)[0] == job.Backup(p)[0];
    if p in REQUIRED_FILES && !added { NoRequiredAbove(p, q); }
  }

  lemma NoRequiredAbove(p: Path, q: Path)
    requires p in REQUIRED_FILES && q in REQUIRED_FILES
    ensures !(p < q)
  {
    TheirPath(p);
    if p < q {
      assert q[..|p|] == p;
      hide REQUIRED_FILES, DIRECTORIES;
      TheirAncestor(q, |p|);
    }
  }

  lemma ObstructingNames(scene: Scene, p: Path, q: Path)
    requires scene.Fits() && JobIn(scene).Obstructs(p, q)
    ensures JobIn(scene).Backup(p) < JobIn(scene).Backup(q)
    ensures p in REQUIRED_FILES || p == MANIFEST || p == scene.entry || p == scene.extra
    ensures q in scene.Files() || q == MANIFEST || q == scene.entry || q == scene.extra
  {
    hide CodePath, Theirs, Kept, Scene.Live, Scene.Files, Normal, Scene.Directories, Scene.Listed, REQUIRED_FILES,
      DIRECTORIES;
    JobParts(scene);
    hide JobIn, Job.Admitted, Job.Swept;
  }

  /** A required file goes to its own name. */
  lemma RequiredFirst(scene: Scene, p: Path)
    requires scene.Fits() && (p in REQUIRED_FILES || (p in scene.Files() && p != scene.entry))
    ensures p in REQUIRED_FILES && JobIn(scene).Backup(p) == p && p != [] && Theirs(p[0])
  {
    hide CodePath, Theirs, Kept, Scene.Live, Normal, Scene.Directories, Scene.Listed;
    assert p in REQUIRED_FILES;
    TheirPath(p);
    JobParts(scene);
    RequiredNode(scene, p);
    hide Scene.Files, REQUIRED_FILES;
    assert p in JobIn(scene).shipped;
    hide JobIn, Job.Admitted;
    ManifestIsNeither(JobIn(scene)) by { JobParts(scene); }
  }

  lemma FileFirst(scene: Scene, q: Path)
    requires scene.Fits() && q in scene.Files() && q != scene.entry
    ensures q != [] && Theirs(q[0])
  {
    hide CodePath, Theirs;
    TheirPath(q);
  }

  lemma BackupFirst(scene: Scene, p: Path)
    requires scene.Fits() && (p == MANIFEST || p == scene.entry || p == scene.extra)
    ensures JobIn(scene).Backup(p) != [] && !Theirs(JobIn(scene).Backup(p)[0])
  {
    hide CodePath, Scene.Live, Scene.Files, Kept, MakePlan;
    var job := JobIn(scene);
    OursAreOther(scene.entry[0]);
    OursAreOther(scene.extra[0]);
    OursAreOther("stale");
    OursAreOther("manifest");
    JobParts(scene);
    ManifestIsNeither(job);
  }

  // ---- Four kinds of release ----

  /** `x` and `stale/x` are installed; the new release ships `stale/x` and no longer `x`. */
  predicate Clobbering(scene: Scene) {
    && |scene.extra| == 1 && scene.entry == ["stale"] + scene.extra
    && scene.extra in scene.files && scene.entry in scene.files
  }

  /** The installed release listed `a`, which has vanished; the new one ships `a/b`. */
  predicate Swallowing(scene: Scene) {
    && |scene.extra| == 1 && |scene.entry| == 2 && scene.entry[..1] == scene.extra
    && scene.files == map[] && scene.entry[0] != "stale"
  }

  /** A file called `manifest` is installed, and shipped again. */
  predicate Obstructing(scene: Scene) {
    scene.entry == ["manifest"] && scene.entry in scene.files
  }

  /** The installed release listed `a/b`, which has vanished with `a`; the new one ships a file `a`. */
  predicate Blocking(scene: Scene) {
    |scene.extra| == 2 && scene.entry == scene.extra[..1]
  }

  function HostScene(extra: Path, files: map<Path, File>, dirs: map<Path, nat>, entry: Path): Scene {
    Scene(Host(extra, files, dirs), "first", extra, files, dirs, entry)
  }

  function Clobber(): Scene {
    HostScene(["x"], map[["x"] := File(8, Data([8])), ["stale", "x"] := File(9, Data([9]))], map[["stale"] := 10],
              ["stale", "x"])
  }

  function Swallow(): Scene {
    HostScene(["a"], map[], map[], ["a", "x"])
  }

  function Obstruct(): Scene {
    HostScene(["manifest"], map[["manifest"] := File(8, Data([8]))], map[], ["manifest"])
  }

  function Block(): Scene {
    HostScene(["a", "x"], map[], map[], ["a"])
  }

  lemma SegmentsAreFine()
    ensures forall s | Ours(s) :: CodePath([s])
    ensures forall s, t | Ours(s) && Ours(t) :: CodePath([s, t])
  {
    forall s | Ours(s) ensures OrdinarySegment(s) && '\0' !in s && s !in PROTECTED_ROOTS {
      OursAreOther(s);
    }
  }

  lemma ClobberExists()
    ensures Clobber().Fits() && Clobbering(Clobber())
  {
    SegmentsAreFine();
    hide CodePath, Host, Scene.Stands, REQUIRED_FILES, DIRECTORIES;
    assert ["stale", "x"][..1] == ["stale"] && ["x"][..1] == ["x"] && ["stale", "x"] == ["stale"] + ["x"];
    HostStands(Clobber());
  }

  lemma SwallowExists()
    ensures Swallow().Fits() && Swallowing(Swallow())
  {
    SegmentsAreFine();
    hide CodePath, Host, Scene.Stands, REQUIRED_FILES, DIRECTORIES;
    assert ["a", "x"][..1] == ["a"] && ["a"][..1] == ["a"];
    HostStands(Swallow());
  }

  lemma ObstructExists()
    ensures Obstruct().Fits() && Obstructing(Obstruct())
  {
    SegmentsAreFine();
    hide CodePath, Host, Scene.Stands, REQUIRED_FILES, DIRECTORIES;
    assert ["manifest"][..1] == ["manifest"];
    HostStands(Obstruct());
  }

  lemma BlockExists()
    ensures Block().Fits() && Blocking(Block())
  {
    SegmentsAreFine();
    hide CodePath, Host, Scene.Stands, REQUIRED_FILES, DIRECTORIES;
    assert ["a", "x"][..1] == ["a"] && ["a"][..1] == ["a"];
    HostStands(Block());
  }

  lemma ListedIsNotShipped(scene: Scene)
    requires scene.Fits() && |scene.entry| != |scene.extra|
    ensures scene.extra !in scene.Files() && JobIn(scene).stale == [scene.extra]
    ensures scene.entry in JobIn(scene).shipped && scene.extra !in JobIn(scene).shipped
    ensures MANIFEST !in JobIn(scene).shipped
  {
    hide CodePath, Scene.Live, Theirs, JobIn, Kept;
    OursAreOther(scene.extra[0]);
    if scene.extra in scene.Files() { FileFirst(scene, scene.extra); }
    JobParts(scene);
    EntryIsFile(scene);
    ManifestIsNeither(JobIn(scene));
  }

  // ---- A completed rollback that loses a file ----

  lemma SharedBackup(job: Job, p: Path)
    requires job.Admitted() && job.stale == [p] && p in job.before.files
    requires ["stale"] + p in job.shipped && ["stale"] + p in job.before.files
    ensures job.Clobbered(["stale"] + p) && forall d :: !job.Swept(d)
  {
    StaleBackup(job, p);
    hide Job.Admitted, Job.AboveShipped, Job.UnderStale;
    assert p in job.stale;
  }

  lemma NothingInTheWay(job: Job)
    requires (forall p, q :: !job.Obstructs(p, q)) && forall d | job.Swept(d) :: !job.Crowded(d)
    ensures !job.Obstructed()
  {
    hide Job.Obstructs, Job.Swept, Job.Crowded;
  }

  /** The original of `stale/x` loses its backup to that of `x`, and nothing obstructs the run. */
  lemma ClobberIsAccepted(scene: Scene)
    requires scene.Fits() && Clobbering(scene)
    ensures scene.entry in scene.Live().files && JobIn(scene).Clobbered(scene.entry) && !JobIn(scene).Obstructed()
  {
    hide CodePath, Scene.Live, Scene.Files, Ours, Theirs, Kept, Job.Obstructs, Job.Swept, Job.Clobbered, Job.Obstructed,
      Job.Admitted;
    ListedIsNotShipped(scene);
    LiveFiles(scene);
    JobParts(scene);
    NoneObstructs(scene);
    SharedBackup(JobIn(scene), scene.extra);
    NothingInTheWay(JobIn(scene));
  }

  lemma StaleIsBackup(job: Job, p: Path)
    requires job.Admitted() && p in job.stale
    ensures job.Backup(p) == ["stale"] + p && |job.Backup(MANIFEST)| == 2
  {
    StaleBackup(job, p);
    ManifestBackup(job);
  }

  /** With a short stale name and a long entry, every name that matters has two segments. */
  lemma NoneObstructs(scene: Scene)
    requires scene.Fits() && |scene.entry| == 2 && |scene.extra| == 1
    ensures forall p, q :: !JobIn(scene).Obstructs(p, q)
  {
    hide CodePath, Scene.Live, Scene.Files, Ours, Theirs, Kept;
    ListedIsNotShipped(scene);
    JobParts(scene);
    var job := JobIn(scene);
    StaleIsBackup(job, scene.extra);
    hide JobIn, Job.Admitted, Job.Handled;
    forall p, q ensures !job.Obstructs(p, q) {
      if job.Obstructs(p, q) { AddedObstructs(scene, p, q); }
    }
  }

  /** The call is stopped after the manifest has been published, and its rollback succeeds: the file is gone. */
  method LoseFile(scene: Scene) returns (disk: Disk, report: Report, ghost journal: seq<Record>)
    requires scene.Fits() && Clobbering(scene)
    ensures report.Finished? && report.outcome.RolledBack? && JobIn(scene).RestoredIn(journal, disk.live)
    ensures scene.entry in scene.Live().files && scene.entry !in disk.live.files
  {
    hide CodePath, Scene.Live, Scene.Fits, JobIn, MakePlan, WellFormed, Job.Clobbered, Job.Obstructed, Job.Blocked,
      Job.Admitted, Job.Complete, Job.RestoredIn, Clobbering;
    ClobberIsAccepted(scene);
    LiveIsTree(scene);
    CallHasJob(scene, {AfterManifestPublish});
    disk := new Disk(scene.Live(), n => false, n => false, n => false, n => 100 + n, (n, p) => false);
    report, journal := InstallRelease(disk, scene.Call({AfterManifestPublish}));
    assert AfterManifestPublish in scene.Call({AfterManifestPublish}).hooks;
    ClobberedIsGone(JobIn(scene), journal, disk.live, scene.entry);
  }

  // ---- A success without a shipped file ----

  lemma NothingCrowded(job: Job, p: Path)
    requires job.Admitted() && job.stale == [p] && forall q | q in job.shipped :: q != [] && q[0] != "stale"
    ensures forall d | job.Swept(d) :: !job.Crowded(d)
  {
    StaleBackup(job, p);
    hide Job.Admitted, Job.AboveShipped, Job.UnderStale;
    forall d | job.Swept(d) ensures !job.Crowded(d) {
      assert d == p;
      forall q | q in job.shipped ensures !(job.Backup(p) <= q) { StartsAlike(job.Backup(p), q); }
    }
  }

  lemma StartsAlike(a: Path, b: Path)
    requires a != [] && b != []
    ensures a <= b ==> a[0] == b[0]
  {
  }

  lemma SwallowIsAccepted(scene: Scene)
    requires scene.Fits() && Swallowing(scene)
    ensures JobIn(scene).UnderStale(scene.entry) && scene.entry in JobIn(scene).shipped
    ensures !JobIn(scene).Obstructed() && !JobIn(scene).Blocked()
  {
    hide CodePath, Scene.Live, Scene.Files, Ours, Theirs, Kept, Job.Obstructs, Job.Swept, Job.Obstructed, Job.Admitted,
      Job.Crowded;
    ListedIsNotShipped(scene);
    JobParts(scene);
    NoneObstructs(scene);
    var job := JobIn(scene);
    forall p | p in job.shipped ensures p != [] && p[0] != "stale" { ShippedApart(scene, p); }
    hide JobIn;
    NothingCrowded(job, scene.extra);
    NothingInTheWay(job);
    assert scene.entry[..1] in job.stale;
    forall d ensures !Ancestor(job.stale, d) {}
  }

  lemma ShippedApart(scene: Scene, p: Path)
    requires scene.Fits() && p in scene.Files() && scene.entry[0] != "stale"
    ensures p != [] && p[0] != "stale"
  {
    hide CodePath;
    OursAreOther("stale");
    if p != scene.entry { FileFirst(scene, p); }
  }

  lemma SwallowedIsGone(scene: Scene, live: Tree)
    requires scene.Fits() && JobIn(scene).UnderStale(scene.entry) && JobIn(scene).InstalledIn(live)
    requires scene.entry in JobIn(scene).shipped && |scene.entry| == 2
    ensures scene.entry !in live.files
  {
    hide Scene.Live, Scene.Files, Scene.Fits, Job.Admitted, Job.UnderStale, JobIn;
    var job := JobIn(scene);
    CallHasJob(scene, {});
    ShippedIsNew(job, scene.entry);
    assert Same(live.files, job.Installed(), scene.entry);
  }

  /** No fault and no hook, and yet the shipped file is not there when the installer reports success. */
  method SwallowFile(scene: Scene) returns (disk: Disk, report: Report, ghost journal: seq<Record>)
    requires scene.Fits() && Swallowing(scene)
    ensures scene.entry in scene.Shipment().tree.files
    ensures report == Finished(Committed) && scene.entry !in disk.live.files
  {
    hide CodePath, Scene.Live, Scene.Fits, Scene.Files, JobIn, MakePlan, WellFormed, Job.Obstructed, Job.Blocked,
      Job.UnderStale, Job.Admitted, Job.InstalledIn;
    SwallowIsAccepted(scene);
    LiveIsTree(scene);
    EntryIsFile(scene);
    CallHasJob(scene, {});
    disk := new Disk(scene.Live(), n => false, n => false, n => false, n => 100 + n, (n, p) => false);
    report, journal := InstallRelease(disk, scene.Call({}));
    SwallowedIsGone(scene, disk.live);
  }

  // ---- Failures without a fault ----

  lemma ManifestObstructed(job: Job, p: Path)
    requires job.Admitted() && p == ["manifest"] && p in job.shipped && p in job.before.files
    ensures job.Obstructed()
  {
    ManifestBackup(job);
    assert job.Obstructs(p, MANIFEST);
  }

  lemma ObstructIsAccepted(scene: Scene)
    requires scene.Fits() && Obstructing(scene)
    ensures JobIn(scene).Obstructed()
  {
    hide CodePath, Scene.Live, Scene.Files, Job.Admitted, Job.Obstructed, Theirs, Kept;
    LiveFiles(scene);
    EntryIsFile(scene);
    JobParts(scene);
    ManifestObstructed(JobIn(scene), scene.entry);
  }

  lemma BlockIsAccepted(scene: Scene)
    requires scene.Fits() && Blocking(scene)
    ensures JobIn(scene).Blocked()
  {
    hide CodePath, Scene.Live, Scene.Files;
    ListedIsNotShipped(scene);
    var job := JobIn(scene);
    hide JobIn;
    assert job.stale[0] == scene.extra && scene.entry < job.stale[0];
  }

  /** Without any fault or hook, an accepted release is rolled back. */
  method FailWithoutFault(scene: Scene) returns (disk: Disk, report: Report, ghost journal: seq<Record>)
    requires scene.Fits() && (Obstructing(scene) || Blocking(scene))
    ensures report.Finished? && report.outcome.RolledBack? && JobIn(scene).RestoredIn(journal, disk.live)
  {
    hide CodePath, Scene.Live, Scene.Fits, Scene.Files, JobIn, MakePlan, WellFormed, Job.Obstructed, Job.Blocked,
      Job.Admitted, Job.RestoredIn, Obstructing, Blocking;
    if Obstructing(scene) { ObstructIsAccepted(scene); } else { BlockIsAccepted(scene); }
    LiveIsTree(scene);
    CallHasJob(scene, {});
    disk := new Disk(scene.Live(), n => false, n => false, n => false, n => 100 + n, (n, p) => false);
    report, journal := InstallRelease(disk, scene.Call({}));
  }

  // ---- What a full disk and a barred root leave ----

  /** No mishap but these. */
  lemma OnlyMishap(disk: Disk, m: Mishaps, from: nat, until: nat)
    requires Met(disk, m, from, until)
    ensures (forall n :: !disk.full(n)) ==> !m.full
    ensures (forall n :: disk.full(n)) ==> m.full
    ensures (forall n :: !disk.barred(n)) ==> !m.barred && !m.barredAfter
    ensures (forall n :: disk.barred(n)) ==> m.barred && m.barredAfter
  {
  }

  /** Without any fault or hook, but on a full disk: the write of the manifest fails, the originals come back, and
      the temporary manifest stays. */
  method LeaveTemporary(scene: Scene) returns (disk: Disk, report: Report, ghost journal: seq<Record>)
    requires scene.Fits() && !JobIn(scene).Obstructed() && !JobIn(scene).Blocked()
    ensures report == Finished(RolledBack(ManifestTemporaryFault)) && JobIn(scene).RestoredIn(journal, disk.live)
    ensures TEMPORARY !in scene.Live().files && TEMPORARY in disk.live.files
  {
    hide CodePath, Scene.Live, Scene.Fits, Scene.Files, JobIn, MakePlan, WellFormed, Job.Obstructed, Job.Blocked,
      Job.Admitted, Job.RestoredIn, Met, Job.InstalledIn, Job.Complete;
    LiveIsTree(scene);
    CallHasJob(scene, {});
    JobNames(scene);
    disk := new Disk(scene.Live(), n => false, n => true, n => false, n => 100 + n, (n, p) => false);
    report, journal := InstallRelease(disk, scene.Call({}));
    ghost var m :| Met(disk, m, 0, disk.clock) && Answer(scene.Call({}), scene.Live(), report, m);
    OnlyMishap(disk, m, 0, disk.clock);
  }

  lemma JobNames(scene: Scene)
    ensures JobIn(scene).temporary == TEMPORARY
  {
  }

  /** The mode of the release root cannot be set: the installation is rolled back, the hook stops the rollback, and
      the finally block fails again. Then the lock is gone, although the originals are safe only together with the
      stage, which is kept. */
  method LoseLock(scene: Scene) returns (disk: Disk, report: Report, ghost journal: seq<Record>)
    requires scene.Fits() && !JobIn(scene).Obstructed() && !JobIn(scene).Blocked()
    ensures report == Escaped(RecoveryRequired(RootBarred))
    ensures JobIn(scene).Safe(Snapshot(disk.live.files, disk.undo.files))
    ensures disk.stage && !disk.lock
  {
    hide CodePath, Scene.Live, Scene.Fits, Scene.Files, JobIn, MakePlan, WellFormed, Job.Obstructed, Job.Blocked,
      Job.Admitted, Job.RestoredIn, Met, Job.InstalledIn, Job.Complete, Job.Safe;
    var hooks := {BeforeRollbackRecord};
    LiveIsTree(scene);
    CallHasJob(scene, hooks);
    disk := new Disk(scene.Live(), n => false, n => false, n => true, n => 100 + n, (n, p) => false);
    report, journal := InstallRelease(disk, scene.Call(hooks));
    ghost var m :| Met(disk, m, 0, disk.clock) && Answer(scene.Call(hooks), scene.Live(), report, m);
    OnlyMishap(disk, m, 0, disk.clock);
    ManifestWasThere(scene);
    if report.outcome.RolledBack? { CompleteIsNotEmpty(JobIn(scene), journal); }
  }

  lemma CompleteIsNotEmpty(job: Job, journal: seq<Record>)
    requires job.Complete(journal) && MANIFEST in job.before.files
    ensures journal != []
  {
    assert job.Target(MANIFEST);
  }

  lemma ManifestWasThere(scene: Scene)
    requires scene.Fits()
    ensures MANIFEST in JobIn(scene).before.files
  {
    hide Scene.Live, Scene.Files, Scene.Fits;
    JobShips(scene);
    LiveFiles(scene);
  }

  /** There is a scene for the two calls. */
  lemma PlainSceneExists()
    ensures Swallow().Fits() && !JobIn(Swallow()).Obstructed() && !JobIn(Swallow()).Blocked()
  {
    SwallowExists();
    SwallowIsAccepted(Swallow());
  }
}
