/** The checks made before the first mutation: reading the previous manifest, listing the archive,
    comparing both with the live tree, and the list of stale files that results. */
module ReleasePlan {
  import opened Wrappers
  import opened Paths
  import opened FileSystem
  import opened ReleaseSpec

  const SCHEMA := "amf.release_manifest/v2"
  const LEGACY_SCHEMA := "amf.release_manifest/v1"

  const REQUIRED_FILES: seq<Path> := [
    ["Dockerfile"], ["compose.agent-memory-fabric.yml"], ["package.json"],
    ["deploy", "tmpfiles.d", "agent-memory-fabric.conf"], ["scripts", "amf-verify-deployment-mode.mjs"]
  ]

  datatype Refusal =
    | PersistentPathInvalid | ManifestInvalid | ManifestPathInvalid | ArchivePathUnsafe
    | ArchiveContainsPersistentPath | ArchivePathDuplicate | ArchiveIncomplete | ParentPathUnsafe
    | DestinationPathUnsafe | TemporaryManifestUnsafe | ConfigBackupExists | StepFailed | LockHeld

  // ---- The previous manifest ----

  predicate LowerHex(c: char) {
    '0' <= c <= '9' || 'a' <= c <= 'f'
  }

  predicate Sha256(s: string) {
    |s| == 64 && forall c | c in s :: LowerHex(c)
  }

  function CodePathOf(entry: string): Result<string, Refusal> {
    match NormalizedEntry(entry)
    case Failure(Unsafe) => Failure(ArchivePathUnsafe)
    case Failure(Persistent) => Failure(ArchiveContainsPersistentPath)
    case Success(None) => Failure(ManifestPathInvalid)
    case Success(Some(path)) => Success(path)
  }

  /** One listed element, under either schema. */
  function ListedPath(legacy: bool, e: ManifestEntry): Result<string, Refusal> {
    if legacy then (if e.Name? then CodePathOf(e.path) else Failure(ManifestInvalid))
    else if e.Name? || !Sha256(e.sha256) then Failure(ManifestInvalid)
    else
      var path := CodePathOf(e.path);
      if path.Success? && path.value != e.path then Failure(ManifestInvalid) else path
  }

  function ListedPaths(legacy: bool, files: seq<ManifestEntry>): Result<seq<string>, Refusal> {
    if files == [] then Success([])
    else
      var first := ListedPath(legacy, files[0]);
      if first.Failure? then Failure(first.error)
      else
        var rest := ListedPaths(legacy, files[1..]);
        if rest.Failure? then rest else Success([first.value] + rest.value)
  }

  /** Each name is above its predecessor: the check the installer makes. */
  predicate StepwiseSorted(names: seq<string>) {
    forall i | 0 < i < |names| :: Less(names[i - 1], names[i])
  }

  function SplitAll(names: seq<string>): (paths: seq<Path>)
    ensures |paths| == |names| && forall i | 0 <= i < |names| :: paths[i] == Split(names[i])
  {
    if names == [] then [] else [Split(names[0])] + SplitAll(names[1..])
  }

  function JoinAll(paths: seq<Path>): (names: seq<string>)
    ensures |names| == |paths| && forall i | 0 <= i < |paths| :: names[i] == Join(paths[i])
  {
    if paths == [] then [] else [Join(paths[0])] + JoinAll(paths[1..])
  }

  function ReadManifest(content: Content): Result<seq<Path>, Refusal> {
    if content.Data? || content.schema !in {SCHEMA, LEGACY_SCHEMA} then Failure(ManifestInvalid)
    else
      var names := ListedPaths(content.schema == LEGACY_SCHEMA, content.files);
      if names.Failure? then Failure(names.error)
      else if !NoRepeats(names.value) || !StepwiseSorted(names.value) then Failure(ManifestInvalid)
      else Success(SplitAll(names.value))
  }

  function ReadPreviousManifest(live: Tree): Result<seq<Path>, Refusal> {
    if !Exists(live, MANIFEST) then Success([])
    else if MANIFEST in live.dirs then Failure(ManifestInvalid)
    else ReadManifest(live.files[MANIFEST].content)
  }

  /** The stepwise check rules out disorder and repetition at any distance. */
  lemma {:induction false} StepwiseIsStrict(names: seq<string>, i: nat, j: nat)
    requires StepwiseSorted(names) && i < j < |names|
    ensures Less(names[i], names[j])
  {
    if i + 1 < j {
      StepwiseIsStrict(names, i, j - 1);
      LessTransitive(names[i], names[j - 1], names[j]);
    }
  }

  lemma {:induction false} ListedAreCodePaths(legacy: bool, files: seq<ManifestEntry>)
    requires ListedPaths(legacy, files).Success?
    ensures var names := ListedPaths(legacy, files).value;
      |names| == |files| && forall n | n in names :: CodePath(Split(n)) && Join(Split(n)) == n
  {
    if files != [] {
      NormalizerYieldsCodePaths(files[0].path);
      JoinOfSplit(ListedPath(legacy, files[0]).value);
      ListedAreCodePaths(legacy, files[1..]);
    }
  }

  /** Whatever manifest is accepted, under either schema, lists release paths without repeats and in
      strictly ascending order. */
  lemma AcceptedManifest(content: Content)
    requires ReadManifest(content).Success?
    ensures var paths := ReadManifest(content).value;
      && |paths| == |content.files| && Ascending(paths) && NoRepeats(paths)
      && (forall p | p in paths :: CodePath(p))
  {
    var legacy := content.schema == LEGACY_SCHEMA;
    var names := ListedPaths(legacy, content.files).value;
    var paths := ReadManifest(content).value;
    ListedAreCodePaths(legacy, content.files);
    forall i | 0 <= i < |paths| ensures CodePath(paths[i]) && Join(paths[i]) == names[i] {
      assert names[i] in names;
    }
    forall i, j | 0 <= i < j < |paths| ensures Less(Join(paths[i]), Join(paths[j])) && paths[i] != paths[j] {
      StepwiseIsStrict(names, i, j);
      LessTotal(names[i], names[j]);
    }
  }

  function EntriesOf(current: seq<Path>, digest: Path -> string): (entries: seq<ManifestEntry>)
    ensures |entries| == |current|
    ensures forall i | 0 <= i < |current| :: entries[i] == Digest(Join(current[i]), digest(current[i]))
  {
    if current == [] then [] else [Digest(Join(current[0]), digest(current[0]))] + EntriesOf(current[1..], digest)
  }

  /** The manifest an installation writes. */
  function ManifestOf(revision: string, current: seq<Path>, digest: Path -> string): Content {
    Manifest(SCHEMA, revision, EntriesOf(current, digest))
  }

  lemma WrittenPath(p: Path, sha256: string)
    requires CodePath(p) && Sha256(sha256)
    ensures ListedPath(false, Digest(Join(p), sha256)) == Success(Join(p))
  {
    hide NormalizedEntry, Join, Sha256;
    NormalizerFixesExactlyTheCodePaths(p);
  }

  lemma {:induction false} WrittenPaths(current: seq<Path>, digest: Path -> string)
    requires forall p | p in current :: CodePath(p) && Sha256(digest(p))
    ensures ListedPaths(false, EntriesOf(current, digest)) == Success(JoinAll(current))
  {
    hide CodePath, Sha256, ListedPath, Join;
    if current != [] {
      assert current[0] in current && forall p | p in current[1..] :: p in current;
      WrittenPath(current[0], digest(current[0]));
      WrittenPaths(current[1..], digest);
      assert EntriesOf(current, digest)[1..] == EntriesOf(current[1..], digest);
    }
  }

  lemma CodePathSplits(p: Path)
    requires CodePath(p)
    ensures Split(Join(p)) == p
  {
    SplitOfJoin(p);
  }

  lemma JoinedNames(current: seq<Path>)
    requires Ascending(current) && forall p | p in current :: CodePath(p)
    ensures NoRepeats(JoinAll(current)) && StepwiseSorted(JoinAll(current)) && SplitAll(JoinAll(current)) == current
  {
    hide Split, Join, Less, CodePath;
    var names := JoinAll(current);
    forall i, j | 0 <= i < j < |names| ensures names[i] != names[j] {
      LessTotal(names[i], names[j]);
    }
    forall i | 0 <= i < |current| ensures Split(names[i]) == current[i] {
      CodePathSplits(current[i]);
    }
  }

  /** What it says: the current schema, the revision, and each file with its own digest, in the order of the release. */
  lemma WrittenSays(revision: string, current: seq<Path>, digest: Path -> string)
    ensures var m := ManifestOf(revision, current, digest);
      && m.Manifest? && m.schema == "amf.release_manifest/v2" && m.revision == revision && |m.files| == |current|
      && forall i | 0 <= i < |current| :: m.files[i] == Digest(Join(current[i]), digest(current[i]))
  {
    hide Join;
  }

  /** The manifest written for a sorted release reads back as exactly that release. */
  lemma WrittenReadsBack(revision: string, current: seq<Path>, digest: Path -> string)
    requires forall p | p in current :: CodePath(p) && Sha256(digest(p))
    requires Ascending(current)
    ensures ReadManifest(ManifestOf(revision, current, digest)) == Success(current)
  {
    hide CodePath, Sha256, NoRepeats, StepwiseSorted, SplitAll, JoinAll, ListedPaths, EntriesOf, Ascending;
    WrittenPaths(current, digest);
    JoinedNames(current);
    assert SCHEMA[|SCHEMA| - 1] != LEGACY_SCHEMA[|SCHEMA| - 1];
  }

  // ---- Which manifests are accepted ----

  /** A manifest of either schema that lists these paths: names of release paths in ascending order, under the current
      schema with digests of 64 lower-case hexadecimal digits, under the old one in any spelling. */
  ghost predicate Lists(content: Content, paths: seq<Path>) {
    && content.Manifest? && |content.files| == |paths| && Ascending(paths) && (forall p | p in paths :: CodePath(p))
    && (|| (content.schema == "amf.release_manifest/v2" && forall i | 0 <= i < |paths| ::
              Named(content.files[i], Join(paths[i])))
        || (content.schema == "amf.release_manifest/v1" && forall i | 0 <= i < |paths| ::
              content.files[i].Name? && NormalizedEntry(content.files[i].path) == Success(Some(Join(paths[i])))))
  }

  predicate Named(e: ManifestEntry, name: string) {
    && e.Digest? && e.path == name && |e.sha256| == 64
    && forall c | c in e.sha256 :: '0' <= c <= '9' || 'a' <= c <= 'f'
  }

  lemma {:induction false} ListedPathsAre(legacy: bool, files: seq<ManifestEntry>, names: seq<string>)
    ensures ListedPaths(legacy, files) == Success(names) <==>
      |names| == |files| && forall i | 0 <= i < |files| :: ListedPath(legacy, files[i]) == Success(names[i])
  {
    hide ListedPath;
    if files != [] && names != [] {
      ListedPathsAre(legacy, files[1..], names[1..]);
      assert names == [names[0]] + names[1..];
      assert forall i | 0 < i < |files| :: files[i] == files[1..][i - 1];
      assert forall i | 0 < i < |names| :: names[i] == names[1..][i - 1];
    }
  }

  lemma ListedPathIs(e: ManifestEntry, p: Path)
    requires CodePath(p)
    ensures ListedPath(false, e) == Success(Join(p)) <==> Named(e, Join(p))
    ensures ListedPath(true, e) == Success(Join(p)) <==>
      e.Name? && NormalizedEntry(e.path) == Success(Some(Join(p)))
  {
    hide NormalizedEntry, Join;
    NormalizerFixesExactlyTheCodePaths(p);
  }

  lemma AcceptedIsListed(content: Content, paths: seq<Path>)
    requires ReadManifest(content) == Success(paths)
    ensures Lists(content, paths)
  {
    AcceptedManifest(content);
    var legacy := content.schema == LEGACY_SCHEMA;
    var names := ListedPaths(legacy, content.files).value;
    ListedAreCodePaths(legacy, content.files);
    hide NormalizedEntry, Join, Split, CodePath, Ascending, NoRepeats, StepwiseSorted, ListedPaths, Named;
    forall i | 0 <= i < |paths| ensures Join(paths[i]) == names[i] && CodePath(paths[i]) {
      assert names[i] in names && paths[i] in paths;
    }
    assert names == JoinAll(paths);
    AcceptedNames(content, paths);
  }

  lemma ListedIsAccepted(content: Content, paths: seq<Path>)
    requires Lists(content, paths)
    ensures ReadManifest(content) == Success(paths)
  {
    hide NormalizedEntry, Join, Split, CodePath, Ascending, NoRepeats, StepwiseSorted, ListedPaths, Named;
    assert forall i | 0 <= i < |paths| :: paths[i] in paths;
    assert SCHEMA[|SCHEMA| - 1] != LEGACY_SCHEMA[|SCHEMA| - 1];
    AcceptedNames(content, paths);
    JoinedNames(paths);
  }

  /** A manifest is accepted as a list of paths exactly if it is one of them. */
  lemma ManifestAccepts(content: Content, paths: seq<Path>)
    ensures ReadManifest(content) == Success(paths) <==> Lists(content, paths)
  {
    hide *;
    if ReadManifest(content) == Success(paths) { AcceptedIsListed(content, paths); }
    if Lists(content, paths) { ListedIsAccepted(content, paths); }
  }

  lemma AcceptedNames(content: Content, paths: seq<Path>)
    requires content.Manifest? && |content.files| == |paths| && (forall i | 0 <= i < |paths| :: CodePath(paths[i]))
    requires content.schema == SCHEMA || content.schema == LEGACY_SCHEMA
    ensures ListedPaths(content.schema == LEGACY_SCHEMA, content.files) == Success(JoinAll(paths)) <==>
      if content.schema == "amf.release_manifest/v2"
      then forall i | 0 <= i < |paths| :: Named(content.files[i], Join(paths[i]))
      else forall i | 0 <= i < |paths| ::
        content.files[i].Name? && NormalizedEntry(content.files[i].path) == Success(Some(Join(paths[i])))
  {
    hide NormalizedEntry, Join, CodePath, ListedPath, Named;
    assert SCHEMA[|SCHEMA| - 1] != LEGACY_SCHEMA[|SCHEMA| - 1];
    ListedPathsAre(content.schema == LEGACY_SCHEMA, content.files, JoinAll(paths));
    forall i | 0 <= i < |paths|
      ensures ListedPath(false, content.files[i]) == Success(Join(paths[i])) <==>
        Named(content.files[i], Join(paths[i]))
      ensures ListedPath(true, content.files[i]) == Success(Join(paths[i])) <==>
        content.files[i].Name? && NormalizedEntry(content.files[i].path) == Success(Some(Join(paths[i])))
    {
      ListedPathIs(content.files[i], paths[i]);
    }
  }

  // ---- Planning ----

  /** The archive as unpacked, and the orders in which its entries are listed. */
  datatype Archive = Archive(tree: Tree, names: seq<string>, files: seq<Path>, directories: seq<Path>) {
    /** What unpacking and a directory walk give: each file and each directory once. */
    ghost predicate Listed() {
      && WellFormed(tree)
      && NoRepeats(files) && (forall p :: p in files <==> p in tree.files)
      && NoRepeats(directories) && (forall d :: d in directories <==> d in tree.dirs && d != [])
      && (forall p | Exists(tree, p) :: Normal(p))
    }
  }

  datatype Plan = Plan(current: seq<Path>, stale: seq<Path>)

  /** Walk down the directories above an entry, as far as they exist. */
  predicate SafeParents(live: Tree, entry: Path, k: nat)
    decreases |entry| - k
  {
    k >= |entry| || !Exists(live, entry[..k]) || (entry[..k] in live.dirs && SafeParents(live, entry, k + 1))
  }

  function FirstError(names: seq<string>): Option<Refusal> {
    if names == [] then None
    else
      match NormalizedEntry(names[0])
      case Failure(Unsafe) => Some(ArchivePathUnsafe)
      case Failure(Persistent) => Some(ArchiveContainsPersistentPath)
      case Success(_) => FirstError(names[1..])
  }

  function NormalizedNames(names: seq<string>): seq<string> {
    if names == [] then []
    else
      var rest := NormalizedNames(names[1..]);
      match NormalizedEntry(names[0])
      case Success(Some(name)) => [name] + rest
      case _ => rest
  }

  /** The paths of a sorted listing, each put through the normaliser. */
  function Validated(paths: seq<Path>): Result<seq<Path>, Refusal> {
    if paths == [] then Success([])
    else
      var first := CodePathOf(Join(paths[0]));
      if first.Failure? then Failure(first.error)
      else
        var rest := Validated(paths[1..]);
        if rest.Failure? then rest else Success([Split(first.value)] + rest.value)
  }

  function DirectoryError(live: Tree, d: Path): Option<Refusal> {
    if !SafeParents(live, d + ["placeholder"], 1) then Some(ParentPathUnsafe)
    else if d in live.files then Some(DestinationPathUnsafe) else None
  }

  function FileError(live: Tree, p: Path): Option<Refusal> {
    if !SafeParents(live, p, 1) then Some(ParentPathUnsafe)
    else if p in live.dirs then Some(DestinationPathUnsafe) else None
  }

  /** The first complaint about a list of paths. */
  function FirstOf(paths: seq<Path>, error: Path -> Option<Refusal>): (r: Option<Refusal>)
    ensures r.None? <==> forall p | p in paths :: error(p).None?
    ensures r.Some? ==> exists p | p in paths :: error(p) == r
  {
    if paths == [] then None
    else
      assert paths == [paths[0]] + paths[1..];
      if error(paths[0]).Some? then error(paths[0]) else FirstOf(paths[1..], error)
  }

  /** validateDestinationLayout */
  function LayoutError(live: Tree, directories: seq<Path>, files: seq<Path>): (r: Option<Refusal>)
    ensures r.Some? ==>
      || (exists d | d in directories :: DirectoryError(live, d) == r)
      || (exists p | p in files :: FileError(live, p) == r)
      || (r.value.TemporaryManifestUnsafe? && [MANIFEST_NAME + ".tmp"] in live.dirs)
  {
    var first := FirstOf(directories, d => DirectoryError(live, d));
    if first.Some? then first
    else
      var second := FirstOf(files, p => FileError(live, p));
      if second.Some? then second
      else if [MANIFEST_NAME + ".tmp"] in live.dirs then Some(TemporaryManifestUnsafe) else None
  }

  function Without(paths: seq<Path>, removed: seq<Path>): (rest: seq<Path>)
    ensures forall p :: p in rest <==> p in paths && p !in removed
    ensures NoRepeats(paths) ==> NoRepeats(rest)
  {
    if paths == [] then []
    else
      assert paths == [paths[0]] + paths[1..];
      assert NoRepeats(paths) ==> NoRepeats(paths[1..]) by {
        assert forall i | 0 <= i < |paths| - 1 :: paths[1..][i] == paths[i + 1];
      }
      if paths[0] in removed then Without(paths[1..], removed) else [paths[0]] + Without(paths[1..], removed)
  }

  /** Everything decided before the first mutation. */
  function MakePlan(live: Tree, archive: Archive): Result<Plan, Refusal> {
    if Identities(live).None? then Failure(PersistentPathInvalid)
    else
      var previous := ReadPreviousManifest(live);
      if previous.Failure? then Failure(previous.error)
      else if FirstError(archive.names).Some? then Failure(FirstError(archive.names).value)
      else if !NoRepeats(NormalizedNames(archive.names)) then Failure(ArchivePathDuplicate)
      else
        var current := Validated(Sort(archive.files));
        if current.Failure? then Failure(current.error)
        else
          var directories := Validated(Sort(archive.directories));
          if directories.Failure? then Failure(directories.error)
          else if exists r | r in REQUIRED_FILES :: r !in current.value then Failure(ArchiveIncomplete)
          else
            var layout := LayoutError(live, directories.value, current.value + previous.value);
            if layout.Some? then Failure(layout.value)
            else Success(Plan(current.value, Without(previous.value, current.value)))
  }

  lemma {:induction false} ValidatedIsIdentity(paths: seq<Path>)
    requires forall p | p in paths :: p != [] && Normal(p)
    ensures Validated(paths).Success? <==> forall p | p in paths :: CodePath(p)
    ensures Validated(paths).Success? ==> Validated(paths).value == paths
  {
    if paths != [] {
      assert paths == [paths[0]] + paths[1..];
      assert paths[0] in paths;
      NormalizerFixesExactlyTheCodePaths(paths[0]);
      SplitOfJoin(paths[0]);
      ValidatedIsIdentity(paths[1..]);
    }
  }

  /** Walking down the parents meets a file above the entry if there is one. */
  lemma {:induction false} SafeParentsSuffice(live: Tree, entry: Path, k: nat, i: nat)
    requires WellFormed(live) && SafeParents(live, entry, k) && 0 < k <= i < |entry|
    ensures entry[..i] !in live.files
    decreases i - k
  {
    if entry[..i] in live.files {
      if k < i {
        assert entry[..i][..k] == entry[..k];
        PrefixesAreDirectories(live, entry[..i], k);
        SafeParentsSuffice(live, entry, k + 1, i);
      }
    }
  }

  /** The listing of an accepted archive, sorted and normalised, is the sorted listing itself. */
  lemma CurrentIsSortedListing(live: Tree, archive: Archive)
    requires archive.Listed() && MakePlan(live, archive).Success?
    ensures var current := MakePlan(live, archive).value.current;
      && current == Sort(archive.files) && Ascending(current) && NoRepeats(current)
      && (forall p :: p in current <==> p in archive.tree.files)
      && (forall p | p in current :: CodePath(p))
  {
    hide Identities, ReadPreviousManifest, NormalizedNames, FirstError, LayoutError, Sort, Join, Less, CodePath;
    forall p | p in archive.files ensures p != [] && SlashFree(p) {
      assert Exists(archive.tree, p) && Normal(p);
    }
    SortSorts(archive.files);
    var sorted := Sort(archive.files);
    ValidatedIsIdentity(sorted);
    forall i, j | 0 <= i < j < |sorted| ensures sorted[i] != sorted[j] {
      LessTotal(Join(sorted[i]), Join(sorted[j]));
    }
  }

  // ---- When a plan is made ----

  lemma {:induction false} SafeParentsIff(live: Tree, entry: Path, k: nat)
    requires WellFormed(live) && 0 < k
    ensures SafeParents(live, entry, k) <==> forall i | k <= i < |entry| :: entry[..i] !in live.files
    decreases |entry| - k
  {
    if k < |entry| {
      SafeParentsIff(live, entry, k + 1);
      if SafeParents(live, entry, k) {
        forall i | k <= i < |entry| ensures entry[..i] !in live.files { SafeParentsSuffice(live, entry, k, i); }
      }
    }
  }

  /** No file stands where a directory above p is needed. */
  predicate ClearAbove(live: Tree, p: Path) {
    forall k | 0 < k < |p| :: p[..k] !in live.files
  }

  lemma FileFits(live: Tree, p: Path)
    requires WellFormed(live)
    ensures FileError(live, p).None? <==> p !in live.dirs && ClearAbove(live, p)
  {
    SafeParentsIff(live, p, 1);
  }

  lemma DirectoryFits(live: Tree, d: Path)
    requires WellFormed(live)
    ensures DirectoryError(live, d).None? <==> d !in live.files && ClearAbove(live, d)
  {
    var entry := d + ["placeholder"];
    SafeParentsIff(live, entry, 1);
    assert forall k | 0 < k <= |d| :: entry[..k] == d[..k];
    assert d[..|d|] == d;
    assert [] !in live.files;
    assert forall k | 0 < k <= |d| :: k < |d| || d[..k] == d;
  }

  lemma LayoutFits(live: Tree, directories: seq<Path>, files: seq<Path>)
    requires WellFormed(live)
    ensures LayoutError(live, directories, files).None? <==>
      && (forall d | d in directories :: d !in live.files && ClearAbove(live, d))
      && (forall p | p in files :: p !in live.dirs && ClearAbove(live, p))
      && [MANIFEST_NAME + ".tmp"] !in live.dirs
  {
    hide DirectoryError, FileError, ClearAbove;
    forall d ensures DirectoryError(live, d).None? <==> d !in live.files && ClearAbove(live, d) {
      DirectoryFits(live, d);
    }
    forall p ensures FileError(live, p).None? <==> p !in live.dirs && ClearAbove(live, p) { FileFits(live, p); }
  }

  /** The persistent paths are there, each of its kind. */
  predicate PersistentThere(live: Tree) {
    && [".env"] in live.files && [".env.runtime"] in live.files && ["runtime"] in live.dirs
    && ["runtime", "m4"] !in live.files && ["var", "agent-memory-fabric"] in live.dirs
  }

  /** The five files without which no archive is a release. */
  predicate RequiredThere(files: map<Path, File>) {
    && ["Dockerfile"] in files && ["compose.agent-memory-fabric.yml"] in files && ["package.json"] in files
    && ["deploy", "tmpfiles.d", "agent-memory-fabric.conf"] in files
    && ["scripts", "amf-verify-deployment-mode.mjs"] in files
  }

  lemma RequiredIff(files: map<Path, File>)
    ensures RequiredThere(files) <==> forall r | r in REQUIRED_FILES :: r in files
  {
    var r := REQUIRED_FILES;
    assert r[0] in r && r[1] in r && r[2] in r && r[3] in r && r[4] in r;
  }

  /** Every name in the archive's listing is one that the normaliser takes, and no two of them are of one entry. */
  ghost predicate NamesFine(names: seq<string>) {
    && (forall n | n in names :: NormalizedEntry(n).Success?)
    && (forall i, j | 0 <= i < j < |names| && NormalizedEntry(names[i]) == NormalizedEntry(names[j]) ::
          NormalizedEntry(names[i]) == Success(None))
  }

  lemma {:induction false} FirstErrorIff(names: seq<string>)
    ensures FirstError(names).None? <==> forall n | n in names :: NormalizedEntry(n).Success?
    ensures FirstError(names).Some? ==> exists k | 0 <= k < |names| ::
      && NormalizedEntry(names[k])
           == Failure(if FirstError(names) == Some(ArchivePathUnsafe) then Unsafe else Persistent)
      && FirstError(names).value in {ArchivePathUnsafe, ArchiveContainsPersistentPath}
      && forall i | 0 <= i < k :: NormalizedEntry(names[i]).Success?
  {
    hide NormalizedEntry;
    if names != [] {
      FirstErrorIff(names[1..]);
      assert names == [names[0]] + names[1..];
      if NormalizedEntry(names[0]).Success? && FirstError(names).Some? {
        var k :| 0 <= k < |names| - 1
          && NormalizedEntry(names[1..][k])
               == Failure(if FirstError(names) == Some(ArchivePathUnsafe) then Unsafe else Persistent)
          && forall i | 0 <= i < k :: NormalizedEntry(names[1..][i]).Success?;
        assert names[k + 1] == names[1..][k];
        assert forall i | 0 < i <= k :: names[i] == names[1..][i - 1];
      }
    }
  }

  lemma {:induction false} NamesIn(names: seq<string>, x: string)
    ensures x in NormalizedNames(names) <==> exists n | n in names :: NormalizedEntry(n) == Success(Some(x))
  {
    hide NormalizedEntry;
    if names != [] {
      NamesIn(names[1..], x);
      assert names == [names[0]] + names[1..];
    }
  }

  predicate DistinctEntries(names: seq<string>) {
    forall i, j | 0 <= i < j < |names| && NormalizedEntry(names[i]) == NormalizedEntry(names[j]) ::
      NormalizedEntry(names[i]) == Success(None) || NormalizedEntry(names[i]).Failure?
  }

  lemma {:induction false} NamesDistinct(names: seq<string>)
    ensures NoRepeats(NormalizedNames(names)) <==> DistinctEntries(names)
  {
    if names != [] {
      hide NormalizedEntry;
      var tail, first := names[1..], NormalizedEntry(names[0]);
      NamesDistinct(tail);
      assert forall i | 0 <= i < |tail| :: tail[i] == names[i + 1];
      assert DistinctEntries(names) <==>
        && DistinctEntries(tail)
        && (forall j | 0 < j < |names| && first == NormalizedEntry(names[j]) ::
              first == Success(None) || first.Failure?);
      if first.Success? && first.value.Some? {
        NamesIn(tail, first.value.value);
        ConsRepeats(first.value.value, NormalizedNames(tail));
        assert (exists n | n in tail :: NormalizedEntry(n) == first)
          <==> (exists j :: 0 < j < |names| && NormalizedEntry(names[j]) == first);
      }
    }
  }

  lemma ConsRepeats(x: string, tail: seq<string>)
    ensures NoRepeats([x] + tail) <==> x !in tail && NoRepeats(tail)
  {
    var all := [x] + tail;
    assert forall i | 0 <= i < |tail| :: all[i + 1] == tail[i];
    if NoRepeats(all) {
      forall i, j | 0 <= i < j < |tail| ensures tail[i] != tail[j] {
        assert all[i + 1] == tail[i] && all[j + 1] == tail[j];
      }
      forall i | 0 <= i < |tail| ensures tail[i] != x { assert all[0] == x && all[i + 1] == tail[i]; }
    }
  }

  lemma NamesFineIff(names: seq<string>)
    ensures NamesFine(names) <==> FirstError(names).None? && NoRepeats(NormalizedNames(names))
  {
    hide NormalizedEntry, FirstError, NormalizedNames, NoRepeats;
    FirstErrorIff(names);
    NamesDistinct(names);
    assert forall i | 0 <= i < |names| :: names[i] in names;
  }

  /** What the checks ask for, in terms of the two trees. */
  ghost predicate Plannable(live: Tree, archive: Archive) {
    && PersistentThere(live) && ReadPreviousManifest(live).Success? && NamesFine(archive.names)
    && (forall p | Exists(archive.tree, p) && p != [] :: CodePath(p))
    && RequiredThere(archive.tree.files)
    && (forall d | d in archive.tree.dirs && d != [] :: d !in live.files && ClearAbove(live, d))
    && (forall p | p in archive.tree.files :: p !in live.dirs && ClearAbove(live, p))
    && (forall p | p in ReadPreviousManifest(live).value :: p !in live.dirs && ClearAbove(live, p))
    && [MANIFEST_NAME + ".tmp"] !in live.dirs
  }

  lemma SortedListing(paths: seq<Path>)
    requires NoRepeats(paths) && forall p | p in paths :: p != [] && Normal(p)
    ensures Validated(Sort(paths)).Success? <==> forall p | p in paths :: CodePath(p)
    ensures Validated(Sort(paths)).Success? ==> Validated(Sort(paths)).value == Sort(paths)
    ensures forall p :: p in Sort(paths) <==> p in paths
  {
    hide Sort, CodePath, Validated;
    SortSorts(paths);
    ValidatedIsIdentity(Sort(paths));
  }

  /** A plan is made exactly if everything fits; it publishes the sorted listing and removes what the
      previous manifest lists besides. */
  lemma PlanIff(live: Tree, archive: Archive)
    requires WellFormed(live) && archive.Listed()
    ensures MakePlan(live, archive).Success? <==> Plannable(live, archive)
    ensures MakePlan(live, archive).Success? ==>
      MakePlan(live, archive).value
        == Plan(Sort(archive.files), Without(ReadPreviousManifest(live).value, Sort(archive.files)))
  {
    hide Identities, ReadPreviousManifest, NormalizedNames, FirstError, LayoutError, Sort, Validated, Without, CodePath,
      WellFormed, Normal, ClearAbove, NoRepeats, RequiredThere, REQUIRED_FILES;
    forall p | Exists(archive.tree, p) ensures Normal(p) && (p in archive.tree.files ==> p != []) {
      RootIsNoFile(archive.tree);
    }
    SortedListing(archive.files);
    SortedListing(archive.directories);
    NamesFineIff(archive.names);
    RequiredIff(archive.tree.files);
    assert PersistentThere(live) <==> Identities(live).Some? by { PersistentIff(live); }
    if ReadPreviousManifest(live).Success? {
      LayoutFits(live, Sort(archive.directories), Sort(archive.files) + ReadPreviousManifest(live).value);
    }
  }

  /** A file of the archive, or one that the previous manifest lists. */
  predicate Concerned(live: Tree, archive: Archive, p: Path) {
    p in archive.tree.files || (ReadPreviousManifest(live).Success? && p in ReadPreviousManifest(live).value)
  }

  /** What each refusal says of the live tree or of the archive. */
  ghost predicate Means(live: Tree, archive: Archive, why: Refusal) {
    match why
    case PersistentPathInvalid => !PersistentThere(live)
    case ManifestInvalid => ReadPreviousManifest(live) == Failure(why)
    case ManifestPathInvalid => ReadPreviousManifest(live) == Failure(why)
    case ArchivePathUnsafe =>
      || ReadPreviousManifest(live) == Failure(why)
      || (exists n | n in archive.names :: NormalizedEntry(n) == Failure(Unsafe))
      || (exists p | Exists(archive.tree, p) && p != [] :: NormalizedEntry(Join(p)) == Failure(Unsafe))
    case ArchiveContainsPersistentPath =>
      || ReadPreviousManifest(live) == Failure(why)
      || (exists n | n in archive.names :: NormalizedEntry(n) == Failure(Persistent))
      || (exists p | Exists(archive.tree, p) && p != [] :: NormalizedEntry(Join(p)) == Failure(Persistent))
    case ArchivePathDuplicate =>
      exists i, j :: 0 <= i < j < |archive.names|
        && NormalizedEntry(archive.names[i]) == NormalizedEntry(archive.names[j])
    case ArchiveIncomplete => !RequiredThere(archive.tree.files)
    case ParentPathUnsafe =>
      || (exists d | d in archive.tree.dirs :: !ClearAbove(live, d) || d in live.files)
      || (exists p :: Concerned(live, archive, p) && !ClearAbove(live, p))
    case DestinationPathUnsafe => exists p :: Concerned(live, archive, p) && p in live.dirs
    case TemporaryManifestUnsafe => [".amf-release-manifest.json.tmp"] in live.dirs
    case _ => false
  }

  /** The refusals of a previous manifest. */
  predicate OfManifest(why: Refusal) {
    why.ManifestInvalid? || why.ManifestPathInvalid? || why.ArchivePathUnsafe? || why.ArchiveContainsPersistentPath?
  }

  lemma {:induction false} ListingErrors(legacy: bool, files: seq<ManifestEntry>)
    ensures ListedPaths(legacy, files).Failure? ==> OfManifest(ListedPaths(legacy, files).error)
  {
    hide NormalizedEntry;
    if files != [] { ListingErrors(legacy, files[1..]); }
  }

  lemma PreviousErrors(live: Tree)
    ensures ReadPreviousManifest(live).Failure? ==> OfManifest(ReadPreviousManifest(live).error)
  {
    if MANIFEST in live.files && live.files[MANIFEST].content.Manifest? {
      var content := live.files[MANIFEST].content;
      ListingErrors(content.schema == LEGACY_SCHEMA, content.files);
      hide ListedPaths;
    }
  }

  lemma {:induction false} ValidatedMeans(paths: seq<Path>)
    requires (forall p | p in paths :: p != [] && Normal(p)) && Validated(paths).Failure?
    ensures Validated(paths).error in {ArchivePathUnsafe, ArchiveContainsPersistentPath}
    ensures exists p | p in paths ::
      NormalizedEntry(Join(p)) == Failure(if Validated(paths).error.ArchivePathUnsafe? then Unsafe else Persistent)
  {
    assert paths[0] in paths && forall p | p in paths[1..] :: p in paths;
    NormalizerDecides(paths[0]);
    hide NormalizedEntry, Join;
    if NormalizedEntry(Join(paths[0])).Success? { ValidatedMeans(paths[1..]); }
  }

  lemma FileErrorMeans(live: Tree, p: Path)
    requires WellFormed(live)
    ensures FileError(live, p) == Some(ParentPathUnsafe) ==> !ClearAbove(live, p)
    ensures FileError(live, p) == Some(DestinationPathUnsafe) ==> p in live.dirs
    ensures FileError(live, p).Some? ==> FileError(live, p).value in {ParentPathUnsafe, DestinationPathUnsafe}
  {
    SafeParentsIff(live, p, 1);
  }

  lemma DirectoryErrorMeans(live: Tree, d: Path)
    requires WellFormed(live) && DirectoryError(live, d).Some?
    ensures DirectoryError(live, d) == Some(ParentPathUnsafe) && (!ClearAbove(live, d) || d in live.files)
  {
    DirectoryFits(live, d);
    var entry := d + ["placeholder"];
    SafeParentsIff(live, entry, 1);
    assert d != [] ==> entry[..|d|] == d;
    assert [] !in live.files;
  }

  lemma LayoutMeans(live: Tree, archive: Archive, directories: seq<Path>, files: seq<Path>)
    requires WellFormed(live) && LayoutError(live, directories, files).Some?
    requires forall d | d in directories :: d in archive.tree.dirs
    requires forall p | p in files :: Concerned(live, archive, p)
    ensures Means(live, archive, LayoutError(live, directories, files).value)
  {
    hide Concerned, ClearAbove, DirectoryError, FileError, WellFormed, LayoutError;
    var r := LayoutError(live, directories, files);
    assert MANIFEST_NAME + ".tmp" == ".amf-release-manifest.json.tmp";
    if d :| d in directories && DirectoryError(live, d) == r {
      DirectoryErrorMeans(live, d);
    } else if p :| p in files && FileError(live, p) == r {
      FileErrorMeans(live, p);
    }
  }

  lemma NamesMean(live: Tree, archive: Archive)
    ensures FirstError(archive.names).Some? ==> Means(live, archive, FirstError(archive.names).value)
    ensures !NoRepeats(NormalizedNames(archive.names)) ==> Means(live, archive, ArchivePathDuplicate)
  {
    FirstErrorIff(archive.names);
    NamesDistinct(archive.names);
    hide FirstError, NormalizedNames, NoRepeats, NormalizedEntry;
    if FirstError(archive.names).Some? {
      var k :| 0 <= k < |archive.names| && NormalizedEntry(archive.names[k])
        == Failure(if FirstError(archive.names) == Some(ArchivePathUnsafe) then Unsafe else Persistent);
      assert archive.names[k] in archive.names;
    }
  }

  lemma TreeMeans(live: Tree, archive: Archive, paths: seq<Path>)
    requires forall p | p in paths :: Exists(archive.tree, p) && p != [] && Normal(p)
    ensures Validated(paths).Failure? ==> Means(live, archive, Validated(paths).error)
  {
    if Validated(paths).Failure? { ValidatedMeans(paths); }
    hide Validated, NormalizedEntry, Normal;
  }

  /** What the first complaint of the checks means. */
  lemma RefusalMeans(live: Tree, archive: Archive)
    requires WellFormed(live) && archive.Listed() && MakePlan(live, archive).Failure?
    ensures Means(live, archive, MakePlan(live, archive).error)
    ensures !PersistentThere(live) ==> MakePlan(live, archive).error == PersistentPathInvalid
    ensures PersistentThere(live) && ReadPreviousManifest(live).Failure? ==>
      MakePlan(live, archive).error == ReadPreviousManifest(live).error
  {
    PersistentIff(live);
    PreviousErrors(live);
    forall p | Exists(archive.tree, p) ensures Normal(p) && (p in archive.tree.files ==> p != []) {
      RootIsNoFile(archive.tree);
    }
    hide Identities, ReadPreviousManifest, NormalizedNames, FirstError, LayoutError, Sort, Validated, CodePath,
      WellFormed, Normal, ClearAbove, NoRepeats, PersistentThere, NormalizedEntry, REQUIRED_FILES;
    if Identities(live).Some? && ReadPreviousManifest(live).Success? { ArchiveRefused(live, archive); }
  }

  lemma ArchiveRefused(live: Tree, archive: Archive)
    requires WellFormed(live) && archive.Listed() && MakePlan(live, archive).Failure?
    requires Identities(live).Some? && ReadPreviousManifest(live).Success?
    requires forall p | Exists(archive.tree, p) :: Normal(p) && (p in archive.tree.files ==> p != [])
    ensures Means(live, archive, MakePlan(live, archive).error)
  {
    var files, directories := Sort(archive.files), Sort(archive.directories);
    NamesMean(live, archive);
    SortedListing(archive.files);
    SortedListing(archive.directories);
    TreeMeans(live, archive, files);
    TreeMeans(live, archive, directories);
    if exists r | r in REQUIRED_FILES :: r !in archive.tree.files { IncompleteMeans(live, archive); }
    hide Means;
    if LayoutError(live, directories, files + ReadPreviousManifest(live).value).Some? {
      LayoutMeans(live, archive, directories, files + ReadPreviousManifest(live).value);
    }
    hide Identities, ReadPreviousManifest, NormalizedNames, FirstError, LayoutError, Sort, Validated, CodePath,
      WellFormed, Normal, ClearAbove, NoRepeats, NormalizedEntry, REQUIRED_FILES, PersistentThere, Without;
  }

  lemma IncompleteMeans(live: Tree, archive: Archive)
    requires exists r | r in REQUIRED_FILES :: r !in archive.tree.files
    ensures Means(live, archive, ArchiveIncomplete)
  {
    RequiredIff(archive.tree.files);
  }

  lemma PersistentIff(live: Tree)
    ensures PersistentThere(live) <==> Identities(live).Some?
  {
  }

  lemma RootIsNoFile(t: Tree)
    requires WellFormed(t)
    ensures [] !in t.files
  {
  }

  predicate FreshName(live: Tree, archive: Archive, plan: Plan, temporary: Path) {
    && |temporary| == 1 && !Exists(live, temporary) && !Protected(temporary) && temporary != MANIFEST
    && temporary !in plan.stale && forall p | p in archive.tree.files :: !(temporary <= p)
  }

  function JobOf(live: Tree, archive: Archive, plan: Plan, temporary: Path, revision: string,
                 digest: Path -> string): Job {
    Job(live, archive.tree.files, plan.current, plan.stale, temporary, ManifestOf(revision, plan.current, digest))
  }

  lemma PreviousAccepted(live: Tree)
    requires ReadPreviousManifest(live).Success?
    ensures var previous := ReadPreviousManifest(live).value;
      NoRepeats(previous) && Ascending(previous) && forall p | p in previous :: CodePath(p)
  {
    if Exists(live, MANIFEST) { AcceptedManifest(live.files[MANIFEST].content); }
  }

  lemma FittingTarget(live: Tree, p: Path)
    requires WellFormed(live) && FileError(live, p).None?
    ensures p !in live.dirs && forall k | 0 < k < |p| :: p[..k] !in live.files
  {
    forall k | 0 < k < |p| ensures p[..k] !in live.files { SafeParentsSuffice(live, p, 1, k); }
  }

  lemma PlannedFits(live: Tree, archive: Archive, p: Path)
    requires MakePlan(live, archive).Success?
    requires p in MakePlan(live, archive).value.current || p in MakePlan(live, archive).value.stale
    ensures FileError(live, p).None?
  {
    var paths := MakePlan(live, archive).value.current + ReadPreviousManifest(live).value;
    var error := (p: Path) => FileError(live, p);
    assert FirstOf(paths, error).None? && p in paths;
    assert error(p).None?;
  }

  lemma PlanFacts(live: Tree, archive: Archive)
    requires MakePlan(live, archive).Success?
    ensures var plan := MakePlan(live, archive).value;
      && Identities(live).Some? && ReadPreviousManifest(live).Success? && MANIFEST !in live.dirs
      && plan.stale == Without(ReadPreviousManifest(live).value, plan.current)
  {
    hide Identities, ReadManifest, NormalizedNames, FirstError, LayoutError, Sort, Validated, Without;
  }

  lemma StaleIsCodePath(live: Tree, archive: Archive, p: Path)
    requires MakePlan(live, archive).Success? && p in MakePlan(live, archive).value.stale
    ensures CodePath(p) && p != []
  {
    hide CodePath, MakePlan, ReadPreviousManifest;
    PlanFacts(live, archive);
    PreviousAccepted(live);
    assert p in ReadPreviousManifest(live).value;
    NotTheRoot(p);
  }

  lemma NotTheRoot(p: Path)
    requires CodePath(p)
    ensures p != []
  {
  }

  lemma {:induction false} WithoutStaysAscending(paths: seq<Path>, removed: seq<Path>)
    requires Ascending(paths)
    ensures Ascending(Without(paths, removed))
  {
    hide Join, Less;
    if paths != [] {
      var rest := Without(paths[1..], removed);
      WithoutStaysAscending(paths[1..], removed);
      forall j | 0 <= j < |rest| ensures Less(Join(paths[0]), Join(rest[j])) {
        assert rest[j] in rest;
        var k :| 0 <= k < |paths| - 1 && paths[1..][k] == rest[j];
        assert paths[k + 1] == rest[j];
      }
    }
  }

  /** In an ascending list a name comes before those below it. */
  lemma AscendingTopDown(paths: seq<Path>, i: nat, j: nat)
    requires Ascending(paths) && i <= j < |paths| && paths[j] != []
    ensures !(paths[j] < paths[i])
  {
    hide Join, Less;
    if paths[j] < paths[i] {
      PrefixIsLess(paths[j], paths[i]);
      LessTotal(Join(paths[i]), Join(paths[j]));
    }
  }

  /** A plan is made only when everything the mutation relies on holds. */
  lemma PlanAdmits(live: Tree, archive: Archive, temporary: Path, revision: string, digest: Path -> string)
    requires WellFormed(live) && archive.Listed() && MakePlan(live, archive).Success?
    requires FreshName(live, archive, MakePlan(live, archive).value, temporary)
    ensures JobOf(live, archive, MakePlan(live, archive).value, temporary, revision, digest).Admitted()
  {
    hide Identities, CodePath, NoRepeats, Ascending, SafeParents, ManifestOf, Protected, MakePlan,
      ReadPreviousManifest, Without;
    var plan := MakePlan(live, archive).value;
    var job := JobOf(live, archive, plan, temporary, revision, digest);
    PlanFacts(live, archive);
    CurrentIsSortedListing(live, archive);
    PreviousAccepted(live);
    forall p | job.Target(p) ensures p !in live.dirs && forall k | 0 < k < |p| :: p[..k] !in live.files {
      if p != MANIFEST {
        PlannedFits(live, archive, p);
        FittingTarget(live, p);
      }
    }
    forall p, k | p in job.shipped && 0 < k < |p| ensures p[..k] !in job.shipped {
      PrefixesAreDirectories(archive.tree, p, k);
    }
    WithoutStaysAscending(ReadPreviousManifest(live).value, plan.current);
    forall i, j | 0 <= i <= j < |plan.stale| ensures !(plan.stale[j] < plan.stale[i]) {
      StaleIsCodePath(live, archive, plan.stale[j]);
      AscendingTopDown(plan.stale, i, j);
    }
    forall p | p in job.shipped ensures p[..1] != temporary && p != temporary {
      assert p[..1] == temporary ==> temporary <= p;
    }
  }

  /** The order of stale and shipped names that the installer relies on can fail only for a listed file
      that is no longer on disk: with all listed files in place, the checks enforce it. */
  lemma PlanLayers(live: Tree, archive: Archive, temporary: Path, revision: string, digest: Path -> string)
    requires WellFormed(live) && archive.Listed() && MakePlan(live, archive).Success?
    requires forall p | p in ReadPreviousManifest(live).value :: p in live.files
    ensures JobOf(live, archive, MakePlan(live, archive).value, temporary, revision, digest).Layered()
  {
    hide Identities, CodePath, NoRepeats, Ascending, SafeParents, ManifestOf, MakePlan, ReadPreviousManifest;
    PlanFacts(live, archive);
    var plan := MakePlan(live, archive).value;
    var job := JobOf(live, archive, plan, temporary, revision, digest);
    CurrentIsSortedListing(live, archive);
    forall p, k | p in job.shipped && 0 < k < |p| ensures p[..k] !in job.stale {
      PlannedFits(live, archive, p);
      FittingTarget(live, p);
    }
  }
}
