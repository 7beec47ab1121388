/** The plan/apply installer of the host administration service: the plan, the compare-and-swap writes and
    the ownership manifest that is written last. */
module HostAdmin {
  import opened Wrappers

  const SCHEMA := "amf.host-admin-installation/v1"
  const UNIT := "amf-host-admin.service"
  const CODE_PATHS: seq<string> := [
    "src/host-file-catalog.mjs", "src/host-catalog-path-index.mjs", "src/host-admin-server.mjs",
    "scripts/amf-host-admin.mjs", "scripts/amf-host-catalog.mjs"
  ]

  /** File contents. A manifest is what JSON.parse makes of the text; `style` 0 is the text that the
      installer itself writes, other styles stand for other spellings of the same value. */
  datatype Content = Raw(text: string) | ManifestText(manifest: Manifest, style: nat)

  /** SHA-256 as an injective function; a recorded digest may also be text that is no digest of anything. */
  datatype Digest = Sha256(of: Content) | OtherText(digest: string)

  /** The recorded targets in the order of the object's keys. */
  datatype Manifest = Manifest(schema: string, runtimeRoot: string, unitPath: string, revision: string,
                               targets: seq<Target>)

  datatype Target = Target(path: string, digest: Digest)

  datatype Source = Source(path: string, content: Content)

  type Files = map<string, Content>

  datatype InstallError =
    | InvalidInstallJson | InstallationManifestInvalid | ManifestTargetInvalid
    | ManagedTargetDrift | UnownedTargetExists
    | StaleInstallPlan | UnsafeInstallDirectory | TokenStateChanged | TargetChanged | SystemError

  predicate Hex40(s: string) {
    |s| == 40 && forall c | c in s :: '0' <= c <= '9' || 'a' <= c <= 'f'
  }

  /** One request: where to install, and the files to install, in the order of the source's Map. */
  datatype Request = Request(runtimeRoot: string, unitDirectory: string, revision: string, material: seq<Source>) {
    function ConfigPath(): string { runtimeRoot + "/config.json" }
    function PolicyPath(): string { runtimeRoot + "/catalog-policy.json" }
    function ManifestPath(): string { runtimeRoot + "/.installation.json" }
    function UnitPath(): string { unitDirectory + "/" + UNIT }
    function Releases(): string { runtimeRoot + "/releases/" }

    /** Each path occurs once in the material. */
    predicate Valid() {
      forall i, j | 0 <= i < j < |material| :: material[i].path != material[j].path
    }

    predicate Managed(f: string) {
      || f == ConfigPath() || f == PolicyPath() || f == UnitPath()
      || (Releases() <= f
          && var rest := f[|Releases()|..];
             |rest| > 40 && Hex40(rest[..40]) && rest[40] == '/' && rest[41..] in CODE_PATHS)
    }
  }

  lemma ManifestIsNotManaged(request: Request)
    ensures !request.Managed(request.ManifestPath())
  {
    var m, root := request.ManifestPath(), request.runtimeRoot;
    assert m[|root| + 1] == '.' && m[|m| - 1] == 'n';
    assert request.ConfigPath()[|root| + 1] == 'c';
    assert request.PolicyPath()[|root| + 1] == 'c';
    assert request.UnitPath()[|request.UnitPath()| - 1] == 'e';
    assert request.Releases()[|root| + 1] == 'r';
  }

  // ---- The material ----

  /** What git says of a path in the revision: its mode, its object, its size and its content. */
  datatype GitFile =
    | Absent | WrongMode | NoBlob | TooLarge
    | Present(content: Content, importsIndex: bool)

  const CATALOG := "src/host-file-catalog.mjs"
  const INDEX := "src/host-catalog-path-index.mjs"
  const CATALOG_CLI := "scripts/amf-host-catalog.mjs"
  const TEMPLATE := "deploy/systemd/amf-host-admin.service.in"

  datatype CollectError = ModeInvalid | BlobInvalid | BlobTooLarge | TemplateInvalid

  /** The source may be left out. */
  predicate Optional(git: string -> GitFile, source: string) {
    source == CATALOG_CLI || (source == INDEX && !(git(CATALOG).Present? && git(CATALOG).importsIndex))
  }

  /** What is wrong with one source; `unit` makes the unit file of the template, if it can. */
  function SourceError(git: string -> GitFile, unit: Content -> Option<Content>, source: string): Option<CollectError> {
    match git(source)
    case Absent => if Optional(git, source) then None else Some(ModeInvalid)
    case WrongMode => Some(ModeInvalid)
    case NoBlob => Some(BlobInvalid)
    case TooLarge => Some(BlobTooLarge)
    case Present(content, _) => if source == TEMPLATE && unit(content).None? then Some(TemplateInvalid) else None
  }

  function Sources(): (sources: seq<string>)
    ensures |sources| == 6 && sources[..5] == CODE_PATHS && sources[5] == TEMPLATE
  {
    CODE_PATHS + [TEMPLATE]
  }

  /** What the source adds to the material. */
  function Collected(release: string, unitPath: string, git: string -> GitFile, unit: Content -> Option<Content>,
                     source: string): seq<Source>
    requires SourceError(git, unit, source).None?
  {
    if git(source).Absent? then []
    else if source == TEMPLATE then [Source(unitPath, unit(git(source).content).value)]
    else [Source(release + "/" + source, git(source).content)]
  }

  function AllCollected(release: string, unitPath: string, git: string -> GitFile, unit: Content -> Option<Content>,
                        sources: seq<string>): seq<Source>
    requires forall s | s in sources :: SourceError(git, unit, s).None?
  {
    if sources == [] then []
    else
      var front, last := sources[..|sources| - 1], sources[|sources| - 1];
      assert last in sources && forall s | s in front :: s in sources;
      AllCollected(release, unitPath, git, unit, front) + Collected(release, unitPath, git, unit, last)
  }

  /** The code files of a revision and the unit, read in a fixed order; historical revisions may lack the two
      optional ones, but a catalog that imports the index must come with it. The first source that is wrong
      decides the error. */
  method CollectCode(release: string, unitPath: string, git: string -> GitFile, unit: Content -> Option<Content>)
    returns (r: Result<seq<Source>, CollectError>)
    ensures r.Success? <==> forall s | s in Sources() :: SourceError(git, unit, s).None?
    ensures r.Success? ==> r.value == AllCollected(release, unitPath, git, unit, Sources())
    ensures r.Failure? ==> exists k | 0 <= k < |Sources()| ::
      && SourceError(git, unit, Sources()[k]) == Some(r.error)
      && forall i | 0 <= i < k :: SourceError(git, unit, Sources()[i]).None?
    ensures r.Success? && git(CATALOG).Present? && git(CATALOG).importsIndex ==> git(INDEX).Present?
  {
    hide AllCollected, CODE_PATHS;
    var material: seq<Source> := [];
    var requiresIndex := false;
    var sources := Sources();
    NothingCollected(release, unitPath, git, unit);
    assert sources[..0] == [];
    for k := 0 to |sources|
      invariant requiresIndex == (k > 0 && git(CATALOG).Present? && git(CATALOG).importsIndex)
      invariant forall s | s in sources[..k] :: SourceError(git, unit, s).None?
      invariant material == AllCollected(release, unitPath, git, unit, sources[..k])
    {
      var source := sources[k];
      SourceStep(k);
      assert Optional(git, source) <==> source == CATALOG_CLI || (source == INDEX && !requiresIndex);
      var bad := git(source);
      if !(bad.Absent? && (source == CATALOG_CLI || (source == INDEX && !requiresIndex))) {
        if bad.Absent? || bad.WrongMode? {
          WrongAt(git, unit, k);
          return Failure(ModeInvalid);
        }
        if bad.NoBlob? {
          WrongAt(git, unit, k);
          return Failure(BlobInvalid);
        }
        if bad.TooLarge? {
          WrongAt(git, unit, k);
          return Failure(BlobTooLarge);
        }
        if source == TEMPLATE && unit(bad.content).None? {
          WrongAt(git, unit, k);
          return Failure(TemplateInvalid);
        }
        if source == CATALOG { requiresIndex := bad.importsIndex; }
        material := material + [if source == TEMPLATE then Source(unitPath, unit(bad.content).value)
                                else Source(release + "/" + source, bad.content)];
      }
      OneCollected(release, unitPath, git, unit, k);
    }
    assert sources[..|sources|] == sources;
    assert INDEX in sources by { SourceStep(0); }
    r := Success(material);
  }

  lemma WrongAt(git: string -> GitFile, unit: Content -> Option<Content>, k: nat)
    requires k < |Sources()| && forall s | s in Sources()[..k] :: SourceError(git, unit, s).None?
    ensures Sources()[k] in Sources() && forall i | 0 <= i < k :: SourceError(git, unit, Sources()[i]).None?
  {
    forall i | 0 <= i < k ensures SourceError(git, unit, Sources()[i]).None? {
      assert Sources()[..k][i] == Sources()[i];
    }
  }

  lemma NothingCollected(release: string, unitPath: string, git: string -> GitFile, unit: Content -> Option<Content>)
    ensures AllCollected(release, unitPath, git, unit, []) == []
  {
  }

  lemma OneCollected(release: string, unitPath: string, git: string -> GitFile, unit: Content -> Option<Content>,
                     k: nat)
    requires k < |Sources()| && forall s | s in Sources()[..k + 1] :: SourceError(git, unit, s).None?
    ensures forall s | s in Sources()[..k] :: SourceError(git, unit, s).None?
    ensures SourceError(git, unit, Sources()[k]).None?
    ensures AllCollected(release, unitPath, git, unit, Sources()[..k + 1])
         == AllCollected(release, unitPath, git, unit, Sources()[..k])
            + Collected(release, unitPath, git, unit, Sources()[k])
  {
    var sources := Sources();
    assert sources[..k + 1][..k] == sources[..k] && sources[..k + 1][k] == sources[k];
    assert forall s | s in sources[..k] :: s in sources[..k + 1];
    assert sources[k] in sources[..k + 1];
    hide SourceError, Collected;
  }

  lemma SourceStep(k: nat)
    requires k < 6
    ensures var sources := Sources();
      && (sources[k] == CATALOG <==> k == 0) && (sources[k] == TEMPLATE <==> k == 5)
      && (forall s :: s in sources[..k + 1] <==> s in sources[..k] || s == sources[k])
      && CATALOG in sources && INDEX in sources && INDEX != TEMPLATE && CATALOG_CLI != TEMPLATE
  {
    var sources := Sources();
    assert sources[..k + 1] == sources[..k] + [sources[k]];
    assert TEMPLATE[0] == 'd' && CATALOG[0] == 's' && INDEX[0] == 's' && CATALOG_CLI[0] == 's';
    assert sources[0] == CATALOG && sources[1] == INDEX && sources[5] == TEMPLATE;
    if k < 5 {
      CodePathStep(k);
      assert sources[k] == CODE_PATHS[k] && CODE_PATHS[k][0] == 's';
    }
  }

  lemma CodePathStep(k: nat)
    requires k < |CODE_PATHS|
    ensures CODE_PATHS[k] == CATALOG <==> k == 0
  {
    assert CODE_PATHS[0] == CATALOG && CODE_PATHS[1] == INDEX;
    assert CATALOG[5] == 'o' && CATALOG[9] == 'f' && INDEX[9] == 'c' && CODE_PATHS[2][9] == 'a';
    assert CODE_PATHS[3][1] == 'c' && CODE_PATHS[4][1] == 'c' && CATALOG[1] == 'r';
  }

  // ---- The plan ----

  function Lookup(targets: seq<Target>, f: string): Option<Digest> {
    if targets == [] then None
    else if targets[0].path == f then Some(targets[0].digest)
    else Lookup(targets[1..], f)
  }

  /** `targets[f] = digest` on an object: an existing key keeps its place. */
  function Assign(targets: seq<Target>, f: string, digest: Digest): seq<Target> {
    if targets == [] then [Target(f, digest)]
    else if targets[0].path == f then [Target(f, digest)] + targets[1..]
    else [targets[0]] + Assign(targets[1..], f, digest)
  }

  function AssignAll(targets: seq<Target>, material: seq<Source>): seq<Target>
    decreases |material|
  {
    if material == [] then targets
    else AssignAll(Assign(targets, material[0].path, Sha256(material[0].content)), material[1..])
  }

  function Observed(files: Files, f: string): Option<Digest> {
    if f in files then Some(Sha256(files[f])) else None
  }

  function OldManifest(files: Files, request: Request): Result<Option<Manifest>, InstallError> {
    var path := request.ManifestPath();
    if path !in files then Success(None)
    else if files[path].Raw? then Failure(InvalidInstallJson)
    else
      var m := files[path].manifest;
      if m.schema != SCHEMA || !Hex40(m.revision)
         || m.runtimeRoot != request.runtimeRoot || m.unitPath != request.UnitPath()
      then Failure(InstallationManifestInvalid) else Success(Some(m))
  }

  function OldTargets(previous: Option<Manifest>): seq<Target> {
    if previous.None? then [] else previous.value.targets
  }

  /** What is wrong with one file, given the targets recorded before. */
  function Problem(files: Files, request: Request, recorded: seq<Target>, f: string): Option<InstallError> {
    if !request.Managed(f) then Some(ManifestTargetInvalid)
    else
      match Lookup(recorded, f)
      case Some(digest) => if Observed(files, f) != Some(digest) then Some(ManagedTargetDrift) else None
      case None => if Observed(files, f).Some? then Some(UnownedTargetExists) else None
  }

  /** The recorded paths, then those of the material. */
  function Paths(recorded: seq<Target>, material: seq<Source>): seq<string> {
    if recorded != [] then [recorded[0].path] + Paths(recorded[1..], material)
    else if material != [] then [material[0].path] + Paths([], material[1..])
    else []
  }

  function FirstProblem(files: Files, request: Request, recorded: seq<Target>,
                        paths: seq<string>): (r: Option<InstallError>)
    ensures r.None? <==> forall f | f in paths :: Problem(files, request, recorded, f).None?
    ensures r.Some? ==> exists f | f in paths :: Problem(files, request, recorded, f) == r
  {
    if paths == [] then None
    else
      assert paths == [paths[0]] + paths[1..];
      if Problem(files, request, recorded, paths[0]).Some? then Problem(files, request, recorded, paths[0])
      else FirstProblem(files, request, recorded, paths[1..])
  }

  function Changes(files: Files, material: seq<Source>): (changes: seq<Source>)
    ensures forall s :: s in changes <==> s in material && Observed(files, s.path) != Some(Sha256(s.content))
  {
    if material == [] then []
    else
      assert material == [material[0]] + material[1..];
      var rest := Changes(files, material[1..]);
      if Observed(files, material[0].path) != Some(Sha256(material[0].content)) then [material[0]] + rest else rest
  }

  function Observations(files: Files, paths: seq<string>): map<string, Option<Digest>> {
    map f | f in paths :: Observed(files, f)
  }

  lemma ObservationsGrow(files: Files, paths: seq<string>, f: string)
    ensures Observations(files, paths + [f]) == Observations(files, paths)[f := Observed(files, f)]
  {
  }

  /** The token file as lstat sees it: device, inode, size and times as one text. */
  datatype TokenState = NoToken | Token(identity: string)

  datatype Plan = Plan(manifest: Manifest, material: seq<Source>, observed: map<string, Option<Digest>>,
                       changes: seq<Source>, token: TokenState)

  function PlanOf(files: Files, token: TokenState, request: Request): Result<Plan, InstallError> {
    match OldManifest(files, request)
    case Failure(e) => Failure(e)
    case Success(previous) =>
      var recorded := OldTargets(previous);
      match FirstProblem(files, request, recorded, Paths(recorded, request.material))
      case Some(e) => Failure(e)
      case None =>
        var manifest := Manifest(SCHEMA, request.runtimeRoot, request.UnitPath(), request.revision,
                                 AssignAll(recorded, request.material));
        var material := request.material + [Source(request.ManifestPath(), ManifestText(manifest, 0))];
        var observed := Observations(files, Paths(recorded, request.material) + [request.ManifestPath()]);
        Success(Plan(manifest, material, observed, Changes(files, material), token))
  }

  // ---- The writes ----

  /** The files after the first k changes have been written. */
  function Written(files: Files, changes: seq<Source>, k: nat): Files
    requires k <= |changes|
  {
    if k == 0 then files else Written(files, changes, k - 1)[changes[k - 1].path := changes[k - 1].content]
  }

  predicate DistinctPaths(sources: seq<Source>) {
    forall i, j | 0 <= i < j < |sources| :: sources[i].path != sources[j].path
  }

  lemma {:induction false} WrittenAt(files: Files, changes: seq<Source>, k: nat, i: nat)
    requires k <= |changes| && i < |changes| && DistinctPaths(changes)
    ensures var f := changes[i].path; var now := Written(files, changes, k);
      if i < k then f in now && now[f] == changes[i].content else Observed(now, f) == Observed(files, f)
  {
    if k > 0 {
      if i < k - 1 || i >= k { WrittenAt(files, changes, k - 1, i); }
    }
  }

  lemma {:induction false} WrittenElsewhere(files: Files, changes: seq<Source>, k: nat, f: string)
    requires k <= |changes| && forall i | 0 <= i < k :: changes[i].path != f
    ensures (f in Written(files, changes, k) <==> f in files)
    ensures (f in files ==> Written(files, changes, k)[f] == files[f])
  {
    if k > 0 { WrittenElsewhere(files, changes, k - 1, f); }
  }

  lemma {:induction false} ChangesAppend(files: Files, a: seq<Source>, b: seq<Source>)
    ensures Changes(files, a + b) == Changes(files, a) + Changes(files, b)
  {
    if a == [] {
      assert a + b == b;
    } else {
      assert (a + b)[1..] == a[1..] + b;
      ChangesAppend(files, a[1..], b);
    }
  }

  /** The changes among the first i elements, and the next one. */
  lemma ChangesStep(files: Files, material: seq<Source>, i: nat)
    requires i < |material|
    ensures var done := Changes(files, material[..i]); var all := Changes(files, material);
      var s := material[i];
      if Observed(files, s.path) != Some(Sha256(s.content)) then
        |done| < |all| && all[|done|] == s && |Changes(files, material[..i + 1])| == |done| + 1
      else |Changes(files, material[..i + 1])| == |done| <= |all|
  {
    var s, rest := material[i], material[i + 1..];
    assert material[..i + 1] == material[..i] + [s];
    assert material == material[..i + 1] + rest;
    ChangesAppend(files, material[..i], [s]);
    ChangesAppend(files, material[..i + 1], rest);
    assert [s][1..] == [];
  }

  lemma {:induction false} ChangesDistinct(files: Files, material: seq<Source>)
    requires DistinctPaths(material)
    ensures DistinctPaths(Changes(files, material))
  {
    if material != [] {
      ChangesDistinct(files, material[1..]);
      var rest := Changes(files, material[1..]);
      forall j | 0 <= j < |rest| ensures rest[j].path != material[0].path {
        assert rest[j] in material[1..];
      }
    }
  }

  lemma {:induction false} PathsHold(recorded: seq<Target>, material: seq<Source>, f: string)
    ensures f in Paths(recorded, material) <==>
      || (exists i :: 0 <= i < |recorded| && recorded[i].path == f)
      || (exists i :: 0 <= i < |material| && material[i].path == f)
    decreases |recorded| + |material|
  {
    if recorded != [] {
      PathsHold(recorded[1..], material, f);
      assert forall i | 0 < i < |recorded| :: recorded[i] == recorded[1..][i - 1];
      assert forall i | 0 <= i < |recorded| - 1 :: recorded[1..][i] == recorded[i + 1];
    } else if material != [] {
      PathsHold(recorded, material[1..], f);
      assert forall i | 0 < i < |material| :: material[i] == material[1..][i - 1];
      assert forall i | 0 <= i < |material| - 1 :: material[1..][i] == material[i + 1];
    }
  }

  lemma WrittenNext(files: Files, changes: seq<Source>, k: nat)
    requires k < |changes|
    ensures Written(files, changes, k + 1) == Written(files, changes, k)[changes[k].path := changes[k].content]
  {
  }

  lemma NothingWritten(files: Files, plan: Plan)
    ensures Written(files, plan.changes, 0) == files && Changes(files, plan.material[..0]) == []
  {
  }

  /** What a plan lists: distinct paths, all of them observed, the manifest last. */
  lemma PlannedPaths(files: Files, token: TokenState, request: Request, plan: Plan)
    requires request.Valid() && PlanOf(files, token, request) == Success(plan)
    ensures DistinctPaths(plan.material) && DistinctPaths(plan.changes)
    ensures forall i | 0 <= i < |plan.material| ::
      && plan.material[i].path in plan.observed
      && plan.observed[plan.material[i].path] == Observed(files, plan.material[i].path)
    ensures forall i | 0 <= i < |request.material| :: request.material[i].path != request.ManifestPath()
    ensures plan.changes == Changes(files, plan.material) && plan.token == token
  {
    var recorded := OldTargets(OldManifest(files, request).value);
    var paths := Paths(recorded, request.material);
    ManifestIsNotManaged(request);
    forall i | 0 <= i < |request.material|
      ensures request.material[i].path in paths && request.material[i].path != request.ManifestPath()
    {
      PathsHold(recorded, request.material, request.material[i].path);
      assert Problem(files, request, recorded, request.material[i].path).None?;
    }
    ChangesDistinct(files, plan.material);
  }

  /** Once all changes are written, everything the plan lists is on disk. */
  lemma AllWritten(files: Files, token: TokenState, request: Request, plan: Plan, i: nat)
    requires request.Valid() && PlanOf(files, token, request) == Success(plan) && i < |plan.material|
    ensures var now := Written(files, plan.changes, |plan.changes|); var s := plan.material[i];
      s.path in now && now[s.path] == s.content
  {
    hide Written, Changes;
    var s := plan.material[i];
    PlannedPaths(files, token, request, plan);
    if s in plan.changes {
      var j :| 0 <= j < |plan.changes| && plan.changes[j] == s;
      WrittenAt(files, plan.changes, |plan.changes|, j);
    } else {
      assert s in plan.material;
      forall j | 0 <= j < |plan.changes| ensures plan.changes[j].path != s.path {
        assert plan.changes[j] in plan.changes && plan.changes[j] in plan.material;
        var l :| 0 <= l < |plan.material| && plan.material[l] == plan.changes[j];
        assert l != i;
      }
      WrittenElsewhere(files, plan.changes, |plan.changes|, s.path);
    }
  }

  lemma AllOnDisk(files: Files, token: TokenState, request: Request, plan: Plan)
    requires request.Valid() && PlanOf(files, token, request) == Success(plan)
    ensures var now := Written(files, plan.changes, |plan.changes|);
      plan.token == token && forall s | s in plan.material :: s.path in now && now[s.path] == s.content
  {
    PlannedPaths(files, token, request, plan);
    hide PlanOf, Written, Request.Valid;
    forall s | s in plan.material
      ensures var now := Written(files, plan.changes, |plan.changes|); s.path in now && now[s.path] == s.content
    {
      var i :| 0 <= i < |plan.material| && plan.material[i] == s;
      AllWritten(files, token, request, plan, i);
    }
  }

  datatype Outcome = Unchanged | Done | Stopped(error: InstallError)

  /** What another process does to one path at one moment: nothing, or it puts or removes a file. */
  datatype Move = Still | Puts(content: Content) | Removes

  function Moved(files: Files, f: string, move: Move): Files {
    match move
    case Still => files
    case Puts(content) => files[f := content]
    case Removes => files - {f}
  }

  /** Its moves during one atomic write: before the second comparison, and between that and the rename. */
  datatype Rival = Rival(during: Move, last: Move)

  const NOBODY := Rival(Still, Still)

  /** The move changes what is at a path that has held this. */
  predicate Alters(move: Move, held: Option<Digest>) {
    match move
    case Still => false
    case Puts(content) => held != Some(Sha256(content))
    case Removes => held.Some?
  }

  /** All of them are there, and nobody else gets into them. */
  predicate Private(directories: map<string, bool>, needed: seq<string>) {
    forall d | d in needed :: d in directories && directories[d]
  }

  /** None of those that are there is open to others. */
  predicate Safe(directories: map<string, bool>, needed: seq<string>) {
    forall d | d in needed && d in directories :: directories[d]
  }

  class Host {
    var files: Files
    /** The temporary files that failed writes have left. */
    var temporaries: nat
    var token: TokenState
    /** The directories there are, and whether nobody else gets into them. */
    var directories: map<string, bool>
    var clock: nat
    const fault: nat -> bool

    constructor (files: Files, token: TokenState, directories: map<string, bool>, fault: nat -> bool)
      ensures this.files == files && this.token == token && this.directories == directories && this.fault == fault
      ensures clock == 0 && temporaries == 0
    {
      this.files, this.token, this.directories, this.fault := files, token, directories, fault;
      clock, temporaries := 0, 0;
    }

    ghost predicate Faulted(from: nat) reads this {
      exists n :: from <= n < clock && fault(n)
    }

    method Tick() returns (ok: bool)
      modifies `clock
      ensures clock == old(clock) + 1 && (ok <==> !fault(old(clock)))
    {
      ok := !fault(clock);
      clock := clock + 1;
    }

    /** The target is compared with what the plan observed, a temporary file is created, written and synced,
        the target is compared again, and the temporary file renamed. If it fails, the target holds what another
        process put there, or what it had held; and a temporary file is left exactly if one was created. A
        success replaces what is there at the rename: the observed content if and only if the move of the other
        process between the last comparison and the rename does not alter it; what it does alter is lost. */
    method AtomicWrite(source: Source, expected: Option<Digest>, rival: Rival)
      returns (error: Option<InstallError>, ghost replaced: Option<Digest>)
      modifies `files, `temporaries, `clock
      ensures clock >= old(clock)
      ensures error.None? ==> files == old(files)[source.path := source.content]
      ensures error.None? ==> Observed(old(files), source.path) == expected
      ensures error.None? ==> Observed(Moved(old(files), source.path, rival.during), source.path) == expected
      ensures error.None? ==>
        replaced == Observed(Moved(Moved(old(files), source.path, rival.during), source.path, rival.last), source.path)
      ensures error.None? ==> (replaced != expected <==> Alters(rival.last, expected))
      ensures error.Some? ==>
        || files == old(files) || files == Moved(old(files), source.path, rival.during)
        || files == Moved(Moved(old(files), source.path, rival.during), source.path, rival.last)
      ensures error == Some(TargetChanged) ==>
        Observed(old(files), source.path) != expected
        || Observed(Moved(old(files), source.path, rival.during), source.path) != expected
      ensures error.Some? && error != Some(TargetChanged) ==> Faulted(old(clock))
      ensures temporaries ==
        old(temporaries) + if error.Some? && clock > old(clock) && !fault(old(clock)) then 1 else 0
    {
      replaced := None;
      if Observed(files, source.path) != expected { return Some(TargetChanged), None; }
      ghost var now := clock;
      var ok := Tick();
      if !ok {
        assert fault(now);
        return Some(SystemError), None;
      }
      temporaries := temporaries + 1;
      now := clock;
      ok := Tick();
      if !ok {
        assert fault(now);
        return Some(SystemError), None;
      }
      files := Moved(files, source.path, rival.during);
      if Observed(files, source.path) != expected { return Some(TargetChanged), None; }
      files := Moved(files, source.path, rival.last);
      now := clock;
      ok := Tick();
      if !ok {
        assert fault(now);
        return Some(SystemError), None;
      }
      replaced := Observed(files, source.path);
      files, temporaries := files[source.path := source.content], temporaries - 1;
      assert files == old(files)[source.path := source.content];
      error := None;
    }

    /** The observations, collected path by path until one of them is a problem. */
    method Observe(request: Request, recorded: seq<Target>)
      returns (problem: Option<InstallError>, observed: map<string, Option<Digest>>)
      ensures problem == FirstProblem(files, request, recorded, Paths(recorded, request.material))
      ensures problem.None? ==> observed == Observations(files, Paths(recorded, request.material))
    {
      hide Problem, Observed, Paths;
      var paths := Paths(recorded, request.material);
      observed := map[];
      var k := 0;
      while k < |paths|
        invariant k <= |paths| && observed == Observations(files, paths[..k])
        invariant FirstProblem(files, request, recorded, paths) == FirstProblem(files, request, recorded, paths[k..])
      {
        problem := Problem(files, request, recorded, paths[k]);
        if problem.Some? { return; }
        ObservationsGrow(files, paths[..k], paths[k]);
        assert paths[..k + 1] == paths[..k] + [paths[k]];
        assert paths[k..][0] == paths[k] && paths[k..][1..] == paths[k + 1..];
        observed := observed[paths[k] := Observed(files, paths[k])];
        k := k + 1;
      }
      assert paths[..k] == paths;
      problem := None;
    }

    method Build(request: Request) returns (plan: Result<Plan, InstallError>)
      ensures plan == PlanOf(files, token, request)
    {
      hide FirstProblem, Paths, Observations, Observed, Changes, OldManifest;
      var previous := OldManifest(files, request);
      if previous.Failure? { return Failure(previous.error); }
      var recorded := OldTargets(previous.value);
      var problem, observed := Observe(request, recorded);
      if problem.Some? { return Failure(problem.value); }
      var path := request.ManifestPath();
      ObservationsGrow(files, Paths(recorded, request.material), path);
      observed := observed[path := Observed(files, path)];
      var targets := recorded;
      for k := 0 to |request.material|
        invariant AssignAll(targets, request.material[k..]) == AssignAll(recorded, request.material)
      {
        assert request.material[k..][0] == request.material[k]
          && request.material[k..][1..] == request.material[k + 1..];
        targets := Assign(targets, request.material[k].path, Sha256(request.material[k].content));
      }
      assert request.material[|request.material|..] == [];
      var manifest := Manifest(SCHEMA, request.runtimeRoot, request.UnitPath(), request.revision, targets);
      var material := request.material + [Source(request.ManifestPath(), ManifestText(manifest, 0))];
      plan := Success(Plan(manifest, material, observed, Changes(files, material), token));
    }

    /** The directories above the targets and the token: each is made private if it is missing, and refused if it is
        there and not private. */
    method EnsureDirectories(needed: seq<string>) returns (error: Option<InstallError>)
      modifies `directories, `clock
      ensures clock >= old(clock)
      ensures forall d | d in old(directories) :: d in directories && directories[d] == old(directories)[d]
      ensures forall d | d in directories && d !in old(directories) :: d in needed && directories[d]
      ensures error.None? ==> Private(directories, needed)
      ensures error.Some? ==>
        || (error == Some(SystemError) && Faulted(old(clock)))
        || (error == Some(UnsafeInstallDirectory) && !Safe(old(directories), needed))
    {
      for i := 0 to |needed|
        invariant clock >= old(clock)
        invariant forall d | d in old(directories) :: d in directories && directories[d] == old(directories)[d]
        invariant forall d | d in directories && d !in old(directories) :: d in needed && directories[d]
        invariant Private(directories, needed[..i])
      {
        var d := needed[i];
        if d !in directories {
          ghost var now := clock;
          var ok := Tick();
          if !ok {
            assert fault(now);
            return Some(SystemError);
          }
          directories := directories[d := true];
        } else if !directories[d] {
          return Some(UnsafeInstallDirectory);
        }
        assert needed[..i + 1] == needed[..i] + [d];
      }
      assert needed[..|needed|] == needed;
      error := None;
    }

    /** The token: unchanged since the plan, and created if there is none. */
    method EnsureToken(planned: TokenState, current: TokenState, created: string) returns (error: Option<InstallError>)
      modifies `token, `clock
      ensures clock >= old(clock)
      ensures error.None? <==> current == planned && (current.Token? || !fault(old(clock)))
      ensures error.None? ==> token == if current.Token? then current else Token(created)
      ensures error.Some? ==> token == current
      ensures error.Some? ==> error == Some(if current != planned then TokenStateChanged else SystemError)
      ensures error == Some(SystemError) ==> Faulted(old(clock))
    {
      token := current;
      if current != planned { return Some(TokenStateChanged); }
      if current.NoToken? {
        ghost var now := clock;
        var ok := Tick();
        if !ok {
          assert fault(now);
          return Some(SystemError);
        }
        token := Token(created);
      }
      error := None;
    }

    /** The writes, file by file: those that the plan observed otherwise. */
    method WriteAll(request: Request, confirmed: Plan, ghost planned: TokenState)
      returns (error: Option<InstallError>, ghost k: nat)
      requires request.Valid() && PlanOf(files, planned, request) == Success(confirmed)
      modifies `files, `temporaries, `clock
      ensures clock >= old(clock)
      ensures k <= |confirmed.changes| && files == Written(old(files), confirmed.changes, k)
      ensures error.None? ==> k == |confirmed.changes|
      ensures error.Some? ==> Faulted(old(clock))
    {
      hide PlanOf, Changes, Observed, Written;
      PlannedPaths(files, planned, request, confirmed);
      NothingWritten(files, confirmed);
      ghost var before := files;
      k := 0;
      var i := 0;
      while i < |confirmed.material|
        invariant i <= |confirmed.material| && k == |Changes(before, confirmed.material[..i])| <= |confirmed.changes|
        invariant files == Written(before, confirmed.changes, k) && clock >= old(clock)
      {
        ChangesStep(before, confirmed.material, i);
        var source := confirmed.material[i];
        if confirmed.observed[source.path] != Some(Sha256(source.content)) {
          WrittenAt(before, confirmed.changes, k, k);
          ghost var replaced;
          error, replaced := AtomicWrite(source, confirmed.observed[source.path], NOBODY);
          if error.Some? { return; }
          WrittenNext(before, confirmed.changes, k);
          k := k + 1;
        }
        i := i + 1;
      }
      assert confirmed.material[..i] == confirmed.material;
      error := None;
    }

    /** applyHostAdminInstall: stopped after any number of writes, the files are those of the plan carried out so
        far. Nothing is written before the directories are private and the token is there, unchanged since the plan.
        Once the confirmed plan has been found again, only a fault, a directory that is not private or a changed
        token stops it. `needed` are the directories in their order, `current` is the token then, `created` the
        identity of a new one. */
    method Apply(request: Request, confirmed: Plan, needed: seq<string>, current: TokenState, created: string)
      returns (outcome: Outcome, ghost k: nat)
      requires request.Valid()
      modifies this
      ensures PlanOf(old(files), old(token), request) != Success(confirmed) ==>
        outcome.Stopped? && files == old(files) && token == old(token) && directories == old(directories)
      ensures PlanOf(old(files), old(token), request) == Success(confirmed) ==>
        && k <= |confirmed.changes| && files == Written(old(files), confirmed.changes, k)
        && (outcome.Unchanged? <==> k == 0 && !outcome.Stopped? && confirmed.changes == [] && confirmed.token.Token?)
        && (outcome.Unchanged? ==> token == old(token))
        && (outcome.Done? ==> k == |confirmed.changes|)
        && (!outcome.Stopped? ==>
              && token.Token?
              && forall s | s in confirmed.material :: s.path in files && files[s.path] == s.content)
        && (outcome.Done? || k > 0 ==>
              Private(directories, needed) && current == confirmed.token
              && token == if current.Token? then current else Token(created))
        && (outcome.Stopped? ==>
              Faulted(old(clock)) || !Safe(old(directories), needed) || current != confirmed.token)
        && (!Safe(old(directories), needed) || current != confirmed.token ==>
              outcome.Unchanged? || (outcome.Stopped? && k == 0))
    {
      hide PlanOf, Observed, Written;
      k := 0;
      NothingYet(files, confirmed);
      var plan := Build(request);
      if plan.Failure? { return Stopped(plan.error), 0; }
      if plan.value != confirmed { return Stopped(StaleInstallPlan), 0; }
      ghost var now := clock;
      var ok := Tick();
      if !ok {
        assert fault(now);
        return Stopped(SystemError), 0;
      }
      if |confirmed.changes| == 0 && confirmed.token.Token? {
        AllOnDisk(files, old(token), request, confirmed);
        return Unchanged, 0;
      }
      var error := EnsureDirectories(needed);
      if error.Some? { return Stopped(error.value), 0; }
      error := EnsureToken(confirmed.token, current, created);
      if error.Some? { return Stopped(error.value), 0; }
      error, k := WriteAll(request, confirmed, old(token));
      outcome := if error.Some? then Stopped(error.value) else Done;
      if error.None? { AllOnDisk(old(files), old(token), request, confirmed); }
    }
  }

  lemma NothingYet(files: Files, plan: Plan)
    ensures Written(files, plan.changes, 0) == files
  {
  }

  /** A lost change, without any fault: the other process puts a new file there after the last comparison. The write
      reports success, and nothing holds that file any more. */
  method LoseChange(source: Source, before: Content, between: Content) returns (host: Host)
    requires before != between && between != source.content
    ensures host.files == map[source.path := source.content]
    ensures Sha256(between) != Sha256(host.files[source.path]) && host.temporaries == 0
  {
    host := new Host(map[source.path := before], NoToken, map[], n => false);
    var error;
    ghost var replaced;
    error, replaced := host.AtomicWrite(source, Some(Sha256(before)), Rival(Still, Puts(between)));
    assert error.None?;
    assert replaced == Some(Sha256(between));
  }
}
