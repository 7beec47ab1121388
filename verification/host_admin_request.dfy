/** Requests as the installer assembles them, and what becomes of them: which paths are managed, when there is a plan,
    and what each refusal means. */
module HostAdminRequest {
  import opened Wrappers
  import opened HostAdmin
  import opened HostAdminRuns

  // ---- Managed paths ----

  /** The file of a revision below the runtime root. */
  function ReleaseFile(runtimeRoot: string, revision: string, source: string): string {
    runtimeRoot + "/releases/" + revision + "/" + source
  }

  predicate IsReleaseFile(runtimeRoot: string, revision: string, source: string, f: string) {
    Hex40(revision) && source in CODE_PATHS && f == ReleaseFile(runtimeRoot, revision, source)
  }

  lemma ReleaseFileSplits(request: Request, revision: string, source: string)
    requires |revision| == 40
    ensures var f := ReleaseFile(request.runtimeRoot, revision, source); var n := |request.Releases()|;
      && request.Releases() <= f && |f[n..]| > 40 && f[n..][..40] == revision && f[n..][40] == '/'
      && f[n..][41..] == source
  {
    var f, n := ReleaseFile(request.runtimeRoot, revision, source), |request.Releases()|;
    assert f[n..] == revision + "/" + source;
  }

  /** The installer manages the two configuration files, its unit, and the code files of any revision; nothing else. */
  lemma ManagedIff(request: Request, f: string)
    ensures request.Managed(f) <==>
      || f == request.runtimeRoot + "/config.json" || f == request.runtimeRoot + "/catalog-policy.json"
      || f == request.unitDirectory + "/amf-host-admin.service"
      || exists revision, source :: IsReleaseFile(request.runtimeRoot, revision, source, f)
  {
    hide CODE_PATHS, Hex40;
    var releases := request.Releases();
    if releases <= f {
      var rest := f[|releases|..];
      if |rest| > 40 && Hex40(rest[..40]) && rest[40] == '/' && rest[41..] in CODE_PATHS {
        assert f == releases + rest && rest == rest[..40] + "/" + rest[41..];
        assert f == ReleaseFile(request.runtimeRoot, rest[..40], rest[41..]);
        assert IsReleaseFile(request.runtimeRoot, rest[..40], rest[41..], f);
      }
    }
    forall revision, source | IsReleaseFile(request.runtimeRoot, revision, source, f) ensures request.Managed(f) {
      HexDigits(revision);
      ReleaseFileSplits(request, revision, source);
    }
  }

  /** A revision is forty digits of the hexadecimal system, in lower case. */
  lemma HexDigits(s: string)
    ensures Hex40(s) <==> |s| == 40 && forall c | c in s :: c in "0123456789" || c in "abcdef"
  {
    forall c: char ensures ('0' <= c <= '9') <==> c in "0123456789" { DecimalDigits(c); }
    forall c: char ensures ('a' <= c <= 'f') <==> c in "abcdef" { Letters(c); }
  }

  lemma DecimalDigits(c: char)
    ensures ('0' <= c <= '9') <==> c in "0123456789"
  {
    var digits := "0123456789";
    if '0' <= c <= '9' { assert digits[c as int - '0' as int] == c; }
  }

  lemma Letters(c: char)
    ensures ('a' <= c <= 'f') <==> c in "abcdef"
  {
    var letters := "abcdef";
    if 'a' <= c <= 'f' { assert letters[c as int - 'a' as int] == c; }
  }

  // ---- The request of a revision ----

  /** The material is exactly the revision's files, the unit made of its template, and the two configuration files. */
  ghost predicate Provides(request: Request, git: string -> GitFile, unit: Content -> Option<Content>,
                           config: Content, policy: Content)
  {
    forall s :: s in request.material <==>
      || s == Source(request.runtimeRoot + "/config.json", config)
      || s == Source(request.runtimeRoot + "/catalog-policy.json", policy)
      || IsUnit(request, git, unit, s)
      || exists source | source in CODE_PATHS :: IsCode(request, git, source, s)
  }

  predicate IsUnit(request: Request, git: string -> GitFile, unit: Content -> Option<Content>, s: Source) {
    && s.path == request.unitDirectory + "/amf-host-admin.service"
    && git("deploy/systemd/amf-host-admin.service.in").Present?
    && unit(git("deploy/systemd/amf-host-admin.service.in").content) == Some(s.content)
  }

  predicate IsCode(request: Request, git: string -> GitFile, source: string, s: Source) {
    git(source).Present? && s == Source(ReleaseFile(request.runtimeRoot, request.revision, source), git(source).content)
  }

  /** Where the file of a source goes. */
  function PlaceOf(release: string, unitPath: string, source: string): string {
    if source == TEMPLATE then unitPath else release + "/" + source
  }

  lemma {:induction false} CollectedHold(release: string, unitPath: string, git: string -> GitFile,
                                         unit: Content -> Option<Content>, sources: seq<string>)
    requires forall s | s in sources :: SourceError(git, unit, s).None?
    requires forall i, j | 0 <= i < j < |sources| ::
      PlaceOf(release, unitPath, sources[i]) != PlaceOf(release, unitPath, sources[j])
    ensures var all := AllCollected(release, unitPath, git, unit, sources);
      && DistinctPaths(all)
      && forall s :: s in all <==> exists x | x in sources :: s in Collected(release, unitPath, git, unit, x)
  {
    if sources != [] {
      var front, last := sources[..|sources| - 1], sources[|sources| - 1];
      AllCollectedNext(release, unitPath, git, unit, sources);
      assert forall i | 0 <= i < |front| :: front[i] == sources[i];
      CollectedHold(release, unitPath, git, unit, front);
      hide *;
      var before := AllCollected(release, unitPath, git, unit, front);
      var more := Collected(release, unitPath, git, unit, last);
      assert forall x :: x in sources <==> x in front || x == last;
      forall s | s in before ensures s.path != PlaceOf(release, unitPath, last) {
        var x :| x in front && s in Collected(release, unitPath, git, unit, x);
        CollectedPlace(release, unitPath, git, unit, x);
        var i :| 0 <= i < |front| && front[i] == x;
      }
      CollectedPlace(release, unitPath, git, unit, last);
      DistinctAppend(before, more, PlaceOf(release, unitPath, last));
    } else {
      NothingCollected(release, unitPath, git, unit);
    }
  }

  lemma AllCollectedNext(release: string, unitPath: string, git: string -> GitFile, unit: Content -> Option<Content>,
                         sources: seq<string>)
    requires sources != [] && forall s | s in sources :: SourceError(git, unit, s).None?
    ensures var front, last := sources[..|sources| - 1], sources[|sources| - 1];
      && (forall s | s in front :: SourceError(git, unit, s).None?) && SourceError(git, unit, last).None?
      && AllCollected(release, unitPath, git, unit, sources)
           == AllCollected(release, unitPath, git, unit, front) + Collected(release, unitPath, git, unit, last)
  {
    hide SourceError, Collected;
    var front, last := sources[..|sources| - 1], sources[|sources| - 1];
    assert last in sources && forall s | s in front :: s in sources;
  }

  lemma CollectedPlace(release: string, unitPath: string, git: string -> GitFile, unit: Content -> Option<Content>,
                       x: string)
    requires SourceError(git, unit, x).None?
    ensures |Collected(release, unitPath, git, unit, x)| <= 1
    ensures forall s | s in Collected(release, unitPath, git, unit, x) :: s.path == PlaceOf(release, unitPath, x)
  {
  }

  lemma DistinctAppend(a: seq<Source>, b: seq<Source>, place: string)
    requires DistinctPaths(a) && |b| <= 1
    requires (forall s | s in a :: s.path != place) && forall s | s in b :: s.path == place
    ensures DistinctPaths(a + b)
  {
    assert forall i | 0 <= i < |a| :: a[i] in a;
    assert forall i | 0 <= i < |b| :: b[i] in b;
  }

  /** No two sources go to the same place. */
  lemma PlacesDiffer(runtimeRoot: string, unitDirectory: string, revision: string, i: nat, j: nat)
    requires i < j < |Sources()|
    ensures var release, unitPath := runtimeRoot + "/releases/" + revision, unitDirectory + "/" + UNIT;
      PlaceOf(release, unitPath, Sources()[i]) != PlaceOf(release, unitPath, Sources()[j])
  {
    var release, unitPath := runtimeRoot + "/releases/" + revision, unitDirectory + "/" + UNIT;
    var sources := Sources();
    SourcesDiffer(i, j);
    SourceEnds(i);
    SourceEnds(j);
    hide CODE_PATHS, Sources;
    var a, b := PlaceOf(release, unitPath, sources[i]), PlaceOf(release, unitPath, sources[j]);
    var n := |release + "/"|;
    assert a[n..] == sources[i];
    if sources[j] == TEMPLATE {
      assert a[|a| - 1] == 's' && b[|b| - 1] == 'e';
    } else {
      assert b[n..] == sources[j];
    }
  }

  lemma SourcesDiffer(i: nat, j: nat)
    requires i < j < |Sources()|
    ensures Sources()[i] != Sources()[j] && Sources()[i] != TEMPLATE && (Sources()[j] == TEMPLATE <==> j == 5)
  {
    var sources := Sources();
    assert |sources[0]| == 25 && |sources[1]| == 31 && |sources[2]| == 25 && |sources[3]| == 26 && |sources[4]| == 28;
    assert |sources[5]| == 40 && sources[0][9] == 'f' && sources[2][9] == 'a';
  }

  lemma SourceEnds(i: nat)
    requires i < |Sources()|
    ensures var s := Sources()[i]; s != "" && (i < 5 ==> s[|s| - 1] == 's')
    ensures UNIT[|UNIT| - 1] == 'e'
  {
    var sources := Sources();
    assert forall k | 0 <= k < 5 :: sources[k] == CODE_PATHS[k];
  }

  /** The code files and the unit, collected, and the two configuration files after them. */
  method Assemble(runtimeRoot: string, unitDirectory: string, revision: string, git: string -> GitFile,
                  unit: Content -> Option<Content>, config: Content, policy: Content)
    returns (r: Result<Request, CollectError>)
    ensures r.Success? <==> forall s | s in Sources() :: SourceError(git, unit, s).None?
    ensures r.Success? ==>
      && r.value.Valid() && Provides(r.value, git, unit, config, policy)
      && r.value.runtimeRoot == runtimeRoot && r.value.unitDirectory == unitDirectory && r.value.revision == revision
  {
    var release, unitPath := runtimeRoot + "/releases/" + revision, unitDirectory + "/" + UNIT;
    hide SourceError, CODE_PATHS, Sources, AllCollected, Collected;
    var code := CollectCode(release, unitPath, git, unit);
    if code.Failure? { return Failure(code.error); }
    var material := code.value + [Source(runtimeRoot + "/config.json", config),
                                  Source(runtimeRoot + "/catalog-policy.json", policy)];
    var request := Request(runtimeRoot, unitDirectory, revision, material);
    forall i, j | 0 <= i < j < |Sources()|
      ensures PlaceOf(release, unitPath, Sources()[i]) != PlaceOf(release, unitPath, Sources()[j])
    {
      PlacesDiffer(runtimeRoot, unitDirectory, revision, i, j);
    }
    CollectedHold(release, unitPath, git, unit, Sources());
    AssembledProvides(request, git, unit, config, policy);
    AssembledIsValid(request, git, unit, code.value, config, policy);
    r := Success(request);
  }

  lemma CollectedIs(request: Request, git: string -> GitFile, unit: Content -> Option<Content>, x: string, s: Source)
    requires x in Sources() && SourceError(git, unit, x).None?
    ensures var release, unitPath := request.runtimeRoot + "/releases/" + request.revision, request.UnitPath();
      s in Collected(release, unitPath, git, unit, x) <==>
        if x == TEMPLATE then IsUnit(request, git, unit, s) else IsCode(request, git, x, s)
  {
    hide CODE_PATHS, Sources;
    var release, unitPath := request.runtimeRoot + "/releases/" + request.revision, request.UnitPath();
    TemplateIsThere(git, unit);
    assert unitPath == request.unitDirectory + "/amf-host-admin.service";
    assert release + "/" + x == ReleaseFile(request.runtimeRoot, request.revision, x);
  }

  lemma TemplateIsThere(git: string -> GitFile, unit: Content -> Option<Content>)
    ensures SourceError(git, unit, TEMPLATE).None? ==>
      git(TEMPLATE).Present? && unit(git(TEMPLATE).content).Some?
    ensures forall x | SourceError(git, unit, x).None? :: git(x).Absent? || git(x).Present?
  {
    assert TEMPLATE[0] == 'd' && CATALOG_CLI[0] == 's' && INDEX[0] == 's';
  }

  lemma AssembledProvides(request: Request, git: string -> GitFile, unit: Content -> Option<Content>,
                          config: Content, policy: Content)
    requires forall s | s in Sources() :: SourceError(git, unit, s).None?
    requires var release, unitPath := request.runtimeRoot + "/releases/" + request.revision, request.UnitPath();
      && (forall s :: s in AllCollected(release, unitPath, git, unit, Sources()) <==>
            exists x | x in Sources() :: s in Collected(release, unitPath, git, unit, x))
      && request.material == AllCollected(release, unitPath, git, unit, Sources())
           + [Source(request.runtimeRoot + "/config.json", config),
              Source(request.runtimeRoot + "/catalog-policy.json", policy)]
    ensures Provides(request, git, unit, config, policy)
    ensures forall s | s in AllCollected(request.runtimeRoot + "/releases/" + request.revision, request.UnitPath(), git,
                                         unit, Sources()) ::
      IsUnit(request, git, unit, s) || exists source | source in CODE_PATHS :: IsCode(request, git, source, s)
  {
    hide SourceError, CODE_PATHS, Sources, AllCollected, Collected, IsUnit, IsCode;
    var release, unitPath := request.runtimeRoot + "/releases/" + request.revision, request.UnitPath();
    SourcesAre();
    forall s, x | x in Sources()
      ensures s in Collected(release, unitPath, git, unit, x) <==>
        if x == TEMPLATE then IsUnit(request, git, unit, s) else IsCode(request, git, x, s)
    {
      CollectedIs(request, git, unit, x, s);
    }
    forall s
      ensures (exists x | x in Sources() :: s in Collected(release, unitPath, git, unit, x)) <==>
        IsUnit(request, git, unit, s) || exists source | source in CODE_PATHS :: IsCode(request, git, source, s)
    {
      if IsUnit(request, git, unit, s) { assert s in Collected(release, unitPath, git, unit, TEMPLATE); }
      forall x | x in CODE_PATHS && IsCode(request, git, x, s)
        ensures exists y | y in Sources() :: s in Collected(release, unitPath, git, unit, y)
      {
        assert s in Collected(release, unitPath, git, unit, x);
      }
    }
  }

  lemma SourcesAre()
    ensures forall x :: x in Sources() <==> x in CODE_PATHS || x == TEMPLATE
    ensures TEMPLATE !in CODE_PATHS
  {
    assert TEMPLATE[0] == 'd';
    assert forall k | 0 <= k < |CODE_PATHS| :: CODE_PATHS[k][0] == 's';
  }

  lemma AssembledIsValid(request: Request, git: string -> GitFile, unit: Content -> Option<Content>,
                         code: seq<Source>, config: Content, policy: Content)
    requires DistinctPaths(code) && Provides(request, git, unit, config, policy)
    requires forall s | s in code ::
      IsUnit(request, git, unit, s) || exists source | source in CODE_PATHS :: IsCode(request, git, source, s)
    requires request.material == code + [Source(request.runtimeRoot + "/config.json", config),
                                         Source(request.runtimeRoot + "/catalog-policy.json", policy)]
    ensures request.Valid()
  {
    hide Provides;
    var a, b := request.runtimeRoot + "/config.json", request.runtimeRoot + "/catalog-policy.json";
    assert a[|request.runtimeRoot| + 2] == 'o' && b[|request.runtimeRoot| + 2] == 'a';
    forall i | 0 <= i < |code| ensures code[i].path != a && code[i].path != b {
      assert code[i] in code;
      assert a[|a| - 1] == 'n' && b[|b| - 1] == 'n';
      PathEnds(request, git, unit, code[i]);
    }
  }

  lemma PathEnds(request: Request, git: string -> GitFile, unit: Content -> Option<Content>, s: Source)
    requires IsUnit(request, git, unit, s) || exists source | source in CODE_PATHS :: IsCode(request, git, source, s)
    ensures s.path != "" && s.path[|s.path| - 1] != 'n'
  {
    if IsUnit(request, git, unit, s) {
      assert s.path[|s.path| - 1] == 'e';
    } else {
      var source :| source in CODE_PATHS && IsCode(request, git, source, s);
      assert forall k | 0 <= k < |CODE_PATHS| :: CODE_PATHS[k] != "" && CODE_PATHS[k][|CODE_PATHS[k]| - 1] == 's';
      assert s.path[|s.path| - 1] == source[|source| - 1];
    }
  }

  // ---- When there is a plan ----

  lemma ProvidedIsManaged(request: Request, git: string -> GitFile, unit: Content -> Option<Content>,
                          config: Content, policy: Content, s: Source)
    requires Provides(request, git, unit, config, policy) && Hex40(request.revision) && s in request.material
    ensures request.Managed(s.path)
  {
    hide CODE_PATHS, Hex40, Request.Managed;
    ManagedIff(request, s.path);
    if exists source | source in CODE_PATHS :: IsCode(request, git, source, s) {
      var source :| source in CODE_PATHS && IsCode(request, git, source, s);
      assert IsReleaseFile(request.runtimeRoot, request.revision, source, s.path);
    }
  }

  lemma NoneRecorded(material: seq<Source>, f: string)
    ensures f in Paths([], material) <==> exists s :: s in material && s.path == f
  {
    PathsHold([], material, f);
    assert forall i | 0 <= i < |material| :: material[i] in material;
  }

  /** On a host where nothing is in the way, every assembled request gets a plan: it writes all of the material and
      then the manifest, which records each file with its digest. */
  lemma FreshPlan(files: Files, token: TokenState, request: Request, git: string -> GitFile,
                  unit: Content -> Option<Content>, config: Content, policy: Content) returns (plan: Plan)
    requires request.Valid() && Hex40(request.revision) && Provides(request, git, unit, config, policy)
    requires request.runtimeRoot + "/.installation.json" !in files
    requires forall s | s in request.material :: s.path !in files
    ensures PlanOf(files, token, request) == Success(plan) && plan.token == token
    ensures plan.manifest.runtimeRoot == request.runtimeRoot && plan.manifest.revision == request.revision
    ensures plan.manifest.schema == "amf.host-admin-installation/v1"
    ensures plan.manifest.unitPath == request.unitDirectory + "/amf-host-admin.service"
    ensures forall s | s in request.material :: Lookup(plan.manifest.targets, s.path) == Some(Sha256(s.content))
    ensures plan.changes == request.material
              + [Source(request.runtimeRoot + "/.installation.json", ManifestText(plan.manifest, 0))]
  {
    hide Request.Managed, CODE_PATHS, Hex40, Provides, Paths, Changes, AssignAll, FirstProblem;
    assert OldManifest(files, request) == Success(None) && Recorded(files, request) == [];
    forall f | f in Paths([], request.material) ensures Agrees(files, request, f) {
      NoneRecorded(request.material, f);
      var s :| s in request.material && s.path == f;
      ProvidedIsManaged(request, git, unit, config, policy, s);
    }
    PlanIffAgrees(files, token, request);
    plan := PlanOf(files, token, request).value;
    PlannedManifest(files, token, request, plan);
    PlannedPaths(files, token, request, plan);
    forall s | s in request.material ensures Lookup(plan.manifest.targets, s.path) == Some(Sha256(s.content)) {
      var i :| 0 <= i < |request.material| && request.material[i] == s;
      AssignAllLooksUp([], request.material, s.path);
    }
    assert plan.manifest.unitPath == request.unitDirectory + "/amf-host-admin.service";
    AllNew(files, plan.material);
  }

  lemma {:induction false} AllNew(files: Files, material: seq<Source>)
    requires forall s | s in material :: s.path !in files
    ensures Changes(files, material) == material
  {
    if material != [] {
      assert material[0] in material && forall s | s in material[1..] :: s in material;
      AllNew(files, material[1..]);
    }
  }

  /** After a complete installation every other assembled request for the same roots gets a plan, as long as nothing
      that is not recorded is in its way. */
  lemma UpgradePlan(files: Files, token: TokenState, request: Request, plan: Plan, next: Request, later: TokenState,
                    git: string -> GitFile, unit: Content -> Option<Content>, config: Content, policy: Content)
    requires request.Valid() && PlanOf(files, token, request) == Success(plan) && Hex40(request.revision)
    requires next.Valid() && Hex40(next.revision) && Provides(next, git, unit, config, policy)
    requires next.runtimeRoot == request.runtimeRoot && next.unitDirectory == request.unitDirectory
    requires var now := Written(files, plan.changes, |plan.changes|);
      forall s | s in next.material && s.path in now :: Lookup(plan.manifest.targets, s.path).Some?
    ensures PlanOf(Written(files, plan.changes, |plan.changes|), later, next).Success?
  {
    hide Request.Managed, CODE_PATHS, Hex40, Provides, Paths, Written, AssignAll;
    var now := Written(files, plan.changes, |plan.changes|);
    AfterComplete(files, token, request, plan, next);
    forall f | f in Paths(Recorded(now, next), next.material) ensures Agrees(now, next, f) {
      PathsHold(Recorded(now, next), next.material, f);
      LookupHolds(plan.manifest.targets, f);
      SameManaged(request, next, f);
      if Lookup(plan.manifest.targets, f).None? {
        var i :| 0 <= i < |next.material| && next.material[i].path == f;
        ProvidedIsManaged(next, git, unit, config, policy, next.material[i]);
      }
    }
    PlanIffAgrees(now, later, next);
  }

  lemma SameManaged(a: Request, b: Request, f: string)
    requires a.runtimeRoot == b.runtimeRoot && a.unitDirectory == b.unitDirectory
    ensures a.Managed(f) <==> b.Managed(f)
  {
  }

  // ---- What a refusal means ----

  /** A manifest is refused exactly if it is no manifest, or not one of this installation. */
  lemma ManifestRefused(files: Files, token: TokenState, request: Request)
    ensures PlanOf(files, token, request) == Failure(InvalidInstallJson) <==>
      var f := request.runtimeRoot + "/.installation.json"; f in files && files[f].Raw?
    ensures PlanOf(files, token, request) == Failure(InstallationManifestInvalid) <==>
      var f := request.runtimeRoot + "/.installation.json";
      && f in files && files[f].ManifestText?
      && var m := files[f].manifest;
         m.schema != "amf.host-admin-installation/v1" || m.runtimeRoot != request.runtimeRoot
         || m.unitPath != request.unitDirectory + "/amf-host-admin.service" || !Hex40(m.revision)
  {
    hide Request.Managed, Hex40, Paths, Changes, AssignAll, Observations;
    assert request.UnitPath() == request.unitDirectory + "/amf-host-admin.service";
  }

  /** Any other refusal points at a file: one that is not managed, one that is recorded and not as recorded, or one
      that is there and not recorded. */
  lemma RefusalMeans(files: Files, token: TokenState, request: Request)
    requires OldManifest(files, request).Success? && PlanOf(files, token, request).Failure?
    ensures var recorded := Recorded(files, request);
      exists f | f in Paths(recorded, request.material) ::
        match PlanOf(files, token, request).error
        case ManifestTargetInvalid => !request.Managed(f)
        case ManagedTargetDrift => Lookup(recorded, f).Some? && Observed(files, f) != Lookup(recorded, f)
        case UnownedTargetExists => Lookup(recorded, f).None? && f in files
        case _ => false
  {
    hide Request.Managed, Hex40, Paths, Changes, AssignAll, Observations, OldManifest;
  }
}
