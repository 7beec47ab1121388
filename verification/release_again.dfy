/** Installing A, B and A again, carried out on a host with a file that no release listed. */
module ReleaseAgain {
  import opened Wrappers
  import opened Paths
  import opened FileSystem
  import opened ReleaseSpec
  import opened ReleaseInstaller
  import opened ReleasePlan
  import opened ReleaseInstall
  import opened ReleaseHistory
  import opened ReleaseExamples

  /** The release listed last and the one to come each add one file at the top. */
  predicate Plain(s: string) {
    s == "a" || s == "x"
  }

  ghost predicate TopLevel(scene: Scene) {
    && scene.Fits() && scene.dirs == map[] && |scene.extra| == 1 && |scene.entry| == 1
    && Plain(scene.extra[0]) && Plain(scene.entry[0])
  }

  lemma PlainNames(s: string)
    requires Plain(s)
    ensures Ours(s) && s != "stale" && s != "manifest"
  {
  }

  /** The backups of the scene's own names: at the top, below `stale`, and that of the manifest. */
  lemma PlainBackups(scene: Scene, p: Path)
    requires TopLevel(scene) && (p == MANIFEST || p == scene.entry || p == scene.extra)
    ensures var b := JobIn(scene).Backup(p);
      (|b| == 1 && Plain(b[0])) || (|b| == 2 && (b[0] == "stale" || b[0] == "manifest"))
  {
    hide CodePath, Scene.Live, Scene.Files, Kept, MakePlan, Theirs, Scene.Fits, Ours, Kept;
    var job := JobIn(scene);
    PlainNames(scene.entry[0]);
    PlainNames(scene.extra[0]);
    OursAreOther(scene.entry[0]);
    OursAreOther(scene.extra[0]);
    JobParts(scene);
    ManifestIsNeither(job);
  }

  lemma NoneObstructs(scene: Scene, p: Path, q: Path)
    requires TopLevel(scene)
    ensures !JobIn(scene).Obstructs(p, q)
  {
    hide JobIn, TopLevel;
    if JobIn(scene).Obstructs(p, q) {
      AddedObstructs(scene, p, q) by { TopLevelFits(scene); }
      PlainBackups(scene, p);
      PlainBackups(scene, q);
      ObstructingBackups(JobIn(scene), p, q);
    }
  }

  lemma TopLevelFits(scene: Scene)
    requires TopLevel(scene)
    ensures scene.Fits()
  {
  }

  lemma ObstructingBackups(job: Job, p: Path, q: Path)
    requires job.Obstructs(p, q)
    ensures job.Backup(p) < job.Backup(q) && (job.Backup(p) != [] ==> job.Backup(p)[0] == job.Backup(q)[0])
  {
    hide Job.Backup;
  }

  lemma ShippedFirst(scene: Scene, p: Path)
    requires TopLevel(scene) && p in scene.Files() && p != scene.extra
    ensures p != [] && p[0] != scene.extra[0]
  {
    hide CodePath, Scene.Live, Scene.Files, Theirs, Kept, Scene.Stands;
    PlainNames(scene.extra[0]);
    OursAreOther(scene.extra[0]);
    if p != scene.entry { FileFirst(scene, p); }
  }

  lemma NothingObstructs(scene: Scene)
    requires TopLevel(scene)
    ensures !JobIn(scene).Obstructed() && !JobIn(scene).Blocked()
    ensures forall p :: !JobIn(scene).UnderStale(p) || p[..1] == scene.extra
    ensures forall d :: !Ancestor(JobIn(scene).stale, d)
  {
    hide CodePath, Scene.Live, Scene.Files, Ours, Theirs, Kept, Scene.Stands, Scene.Named;
    var job := JobIn(scene);
    JobParts(scene);
    forall p, q ensures !job.Obstructs(p, q) { NoneObstructs(scene, p, q); }
    forall p | p in job.shipped && p != scene.extra ensures p != [] && p[0] != scene.extra[0] {
      ShippedFirst(scene, p);
    }
    hide JobIn, Job.Obstructs, Job.Admitted, TopLevel;
    ShortStale(job, scene.extra) by { assert TopLevelExtra(scene); }
    NothingInTheWay(job);
  }

  lemma SameHead(d: Path, p: Path)
    requires d < p
    ensures d != [] ==> p[0] == d[0]
  {
  }

  ghost predicate TopLevelExtra(scene: Scene) {
    |scene.extra| == 1
  }

  lemma ShortStale(job: Job, extra: Path)
    requires |extra| == 1 && (job.stale == [] || job.stale == [extra])
    requires forall p | p in job.shipped && p != extra :: p != [] && p[0] != extra[0]
    requires extra in job.shipped ==> job.stale == []
    ensures (forall d :: !job.Swept(d)) && (forall d :: !Ancestor(job.stale, d)) && !job.Blocked()
    ensures forall p :: !job.UnderStale(p) || p[..1] == extra
  {
    forall p | job.UnderStale(p) ensures p[..1] == extra {
      var k :| 0 < k < |p| && p[..k] in job.stale;
      assert k == 1;
    }
    forall d ensures !job.Swept(d) {
      if d in job.stale && job.AboveShipped(d) {
        var p :| p in job.shipped && d < p;
        SameHead(d, p);
      }
    }
  }

  // ---- The host after a success ----

  /** What else is at the top: the files of releases, listed or not. */
  function Others(live: Tree): map<Path, File> {
    map p | p in live.files && |p| == 1 && Ours(p[0]) :: live.files[p]
  }

  function After(scene: Scene, live: Tree, entry: Path): Scene {
    Scene(live, "second", scene.entry, Others(live), map[], entry)
  }

  lemma FilesAfter(scene: Scene, live: Tree, p: Path)
    requires TopLevel(scene) && JobIn(scene).InstalledIn(live) && p != MANIFEST
    ensures p in live.files <==>
      p in REQUIRED_FILES || p == scene.entry || KeptFile(p) || (p in scene.files && p != scene.extra)
    ensures p in REQUIRED_FILES || p == scene.entry ==> Holds(live.files, p, File(20, Data([1])))
  {
    hide CodePath, Theirs, Kept, MakePlan, Scene.Files, Scene.Listed, Ancestor, EmptyDirectory, Job.UnderStale,
      REQUIRED_FILES, DIRECTORIES, Job.Admitted;
    var job := JobIn(scene);
    assert Same(live.files, job.Installed(), p);
    JobParts(scene);
    JobShips(scene);
    NothingObstructs(scene);
    LiveSplits(scene, p);
    ShippedAre(scene, p);
    if p in job.shipped { NotUnder(scene, p); }
  }

  lemma ShippedAre(scene: Scene, p: Path)
    requires TopLevel(scene)
    ensures p in scene.Files() <==> p in REQUIRED_FILES || p == scene.entry
    ensures p in JobIn(scene).shipped ==> JobIn(scene).shipped[p] == File(20, Data([1]))
    ensures p == scene.extra || KeptFile(p) ==> p !in REQUIRED_FILES
    ensures KeptFile(p) ==> p != scene.entry && p != scene.extra && p !in scene.files
  {
    hide CodePath, Theirs, Kept, Scene.Stands, Scene.Listed;
    PlainNames(scene.extra[0]);
    PlainNames(scene.entry[0]);
    OursAreOther(scene.extra[0]);
    OursAreOther(scene.entry[0]);
    if KeptFile(p) || p in REQUIRED_FILES { NameIsApart(scene, p); }
    if p in REQUIRED_FILES { TheirPath(p); }
    if KeptFile(p) { KeptFileNoDirectory(p); }
  }

  lemma LiveSplits(scene: Scene, p: Path)
    requires TopLevel(scene)
    ensures p in scene.live.files <==> p in scene.files || p in REQUIRED_FILES || KeptFile(p)
    ensures p in scene.files ==> |p| == 1 && Ours(p[0]) && scene.live.files[p] == scene.files[p]
  {
    hide CodePath, REQUIRED_FILES, DIRECTORIES, Ours, KeptFile, KeptDirectory;
  }

  lemma NotUnder(scene: Scene, p: Path)
    requires TopLevel(scene) && p in scene.Files()
    ensures !JobIn(scene).UnderStale(p)
  {
    hide CodePath, Theirs, JobIn, Scene.Files, Job.UnderStale, Scene.Stands;
    NothingObstructs(scene);
    if p == scene.entry {
      assert p[..1] == p;
      JobStale(scene);
      hide TopLevel;
      OneSegment(JobIn(scene), p);
    } else {
      FileFirst(scene, p);
      PlainNames(scene.extra[0]);
      OursAreOther(scene.extra[0]);
    }
  }

  lemma JobStale(scene: Scene)
    requires TopLevel(scene)
    ensures |scene.entry| == 1
  {
  }

  lemma OneSegment(job: Job, p: Path)
    requires |p| == 1
    ensures !job.UnderStale(p)
  {
  }

  lemma DirectoriesAfter(scene: Scene, live: Tree, d: Path)
    requires TopLevel(scene) && JobIn(scene).InstalledIn(live) && WellFormed(live)
    ensures d in live.dirs <==> d == [] || d in DIRECTORIES || KeptDirectory(d)
  {
    hide CodePath, Theirs, Kept, MakePlan, Scene.Listed, EmptyDirectory, Job.UnderStale, Scene.Files, Sort,
      REQUIRED_FILES, DIRECTORIES, Job.Admitted, Job.Installed;
    var job := JobIn(scene);
    JobShips(scene);
    NothingObstructs(scene);
    if Ancestor(job.current, d) {
      var i :| 0 <= i < |job.current| && d < job.current[i];
      ScenePlan(scene);
      ShippedAre(scene, job.current[i]);
      AboveFile(job.current[i], d);
    }
    assert d in scene.live.dirs <==> d == [] || d in DIRECTORIES || KeptDirectory(d);
  }

  lemma AboveFile(p: Path, d: Path)
    requires d < p && d != [] && (p in REQUIRED_FILES || |p| == 1)
    ensures d in DIRECTORIES
  {
    hide REQUIRED_FILES, DIRECTORIES;
    if p in REQUIRED_FILES {
      TheirAncestor(p, |d|);
      assert p[..|d|] == d;
    }
  }

  lemma NextStands(next: Scene)
    requires next.files == Others(next.live) && next.dirs == map[]
    requires forall p | p in next.live.files && p != MANIFEST ::
      p in REQUIRED_FILES || KeptFile(p) || (|p| == 1 && Ours(p[0]))
    requires forall p | p in REQUIRED_FILES || KeptFile(p) :: p in next.live.files
    requires MANIFEST in next.live.files
    requires next.live.files[MANIFEST].content == ManifestOf(next.revision, Listing(next.extra), Digests)
    requires forall d :: d in next.live.dirs <==> d == [] || d in DIRECTORIES || KeptDirectory(d)
    ensures next.Stands()
  {
    hide REQUIRED_FILES, DIRECTORIES, Ours, KeptFile, KeptDirectory, ManifestOf, Listing;
    ManifestKept();
  }

  /** After a success the host is one like before. */
  lemma NextFits(scene: Scene, live: Tree, entry: Path)
    requires TopLevel(scene) && JobIn(scene).InstalledIn(live) && WellFormed(live)
    requires |entry| == 1 && Plain(entry[0])
    ensures TopLevel(After(scene, live, entry))
  {
    hide CodePath, REQUIRED_FILES, DIRECTORIES, Ours, KeptFile, KeptDirectory, ManifestOf, Listing, JobIn,
      Job.InstalledIn, Scene.Stands, Scene.Named, WellFormed;
    var next := After(scene, live, entry);
    PlainNames(scene.entry[0]);
    ManifestKept();
    NewManifest(scene, live);
    forall p | p != MANIFEST
      ensures p in live.files ==> p in REQUIRED_FILES || KeptFile(p) || (|p| == 1 && Ours(p[0]))
      ensures p in REQUIRED_FILES || KeptFile(p) ==> p in live.files
    {
      FilesAfter(scene, live, p);
      LiveSplits(scene, p);
    }
    forall d ensures d in live.dirs <==> d == [] || d in DIRECTORIES || KeptDirectory(d) {
      DirectoriesAfter(scene, live, d);
    }
    NextStands(next);
    NextNamed(scene, live, entry);
    FitsBoth(next);
  }

  lemma FitsBoth(scene: Scene)
    requires scene.Named() && scene.Stands()
    ensures scene.Fits()
  {
  }

  lemma ManifestKept()
    ensures KeptFile(MANIFEST)
  {
  }

  lemma NewManifest(scene: Scene, live: Tree)
    requires JobIn(scene).InstalledIn(live)
    ensures MANIFEST in live.files
    ensures live.files[MANIFEST].content == ManifestOf("second", Listing(scene.entry), Digests)
  {
    hide ManifestOf, Sort, Ancestor, EmptyDirectory, Job.Installed;
  }

  lemma OursPath(p: Path)
    requires |p| == 1 && Ours(p[0])
    ensures CodePath(p)
  {
    SegmentsAreFine();
    hide CodePath, Ours;
    assert p == [p[0]];
  }

  lemma NextNamed(scene: Scene, live: Tree, entry: Path)
    requires TopLevel(scene) && |entry| == 1 && Plain(entry[0])
    ensures After(scene, live, entry).Named()
  {
    hide CodePath, Ours, Plain, Scene.Stands, REQUIRED_FILES, DIRECTORIES;
    PlainNames(scene.entry[0]);
    PlainNames(entry[0]);
    assert entry[..1] == entry && scene.entry[..1] == scene.entry;
    OursPath(entry);
    OursPath(scene.entry);
    forall p | p in Others(live) ensures CodePath(p) { OursPath(p); }
  }

  // ---- The three calls ----

  function Start(): Scene {
    HostScene(["a"], map[["a"] := File(8, Data([8])), ["x"] := File(9, Data([9]))], map[], ["a"])
  }

  lemma StartFits()
    ensures TopLevel(Start())
  {
    SegmentsAreFine();
    hide CodePath, Host, Scene.Stands, REQUIRED_FILES, DIRECTORIES;
    assert ["a"][..1] == ["a"] && ["x"][..1] == ["x"];
    HostStands(Start());
  }

  lemma StartParts()
    ensures Start().extra == ["a"] && Start().entry == ["a"] && ["x"] in Start().files && ["x"] != ["a"]
    ensures ["x"] !in REQUIRED_FILES && !KeptFile(["x"]) && Plain("x") && Plain("a")
  {
    OursAreOther("x");
    if ["x"] in REQUIRED_FILES { TheirPath(["x"]); }
    hide Host, REQUIRED_FILES, CodePath;
    assert "x"[0] == 'x' && "a"[0] == 'a' && ".env"[0] == '.' && ".env.runtime"[0] == '.' && MANIFEST_NAME[0] == '.';
  }

  lemma Ships(scene: Scene, p: Path)
    ensures p in scene.Call({}).archive.tree.files <==> p in REQUIRED_FILES || p == scene.entry
  {
    hide REQUIRED_FILES, DIRECTORIES;
  }

  lemma SameShipment(s: Scene, u: Scene)
    requires s.entry == u.entry
    ensures s.Call({}).archive == u.Call({}).archive
  {
  }

  /** A call on such a host succeeds, and is a step of a history. */
  method InstallOn(disk: Disk, scene: Scene) returns (ghost step: Step)
    requires TopLevel(scene) && disk.live == scene.live && disk.Valid() && !disk.lock
    requires forall n :: !disk.fault(n) && !disk.full(n) && !disk.barred(n)
    modifies disk
    ensures disk.Valid() && !disk.lock && JobIn(scene).InstalledIn(disk.live) && WellFormed(disk.live)
    ensures step.request == scene.Call({}) && step.Committed() && Follows(old(disk.live), step, disk.live)
  {
    hide CodePath, Scene.Fits, Scene.Files, JobIn, MakePlan, WellFormed, Job.Obstructed, Job.Blocked, Job.Admitted,
      Job.InstalledIn, Met, Sha256, Effect, Follows;
    NothingObstructs(scene);
    CallHasJob(scene, {}) by { TopLevelFits(scene); }
    DigestsAreFine();
    var report;
    ghost var journal;
    report, journal := InstallRelease(disk, scene.Call({}));
    ghost var m :| Met(disk, m, old(disk.clock), disk.clock) && Answer(scene.Call({}), scene.live, report, m);
    OnlyMishap(disk, m, old(disk.clock), disk.clock);
    CallFollows(scene.Call({}), old(disk.live), report, journal, disk.live, disk.undo, disk.trace, |old(disk.trace)|);
    assert JobIn(scene).InstalledIn(disk.live) by { EffectInstalls(scene, report, journal, disk, |old(disk.trace)|); }
    assert WellFormed(disk.live) by { ValidTree(disk); }
    step := Step(scene.Call({}), Some(report.outcome), journal);
  }

  lemma ValidTree(disk: Disk)
    requires disk.Valid()
    ensures WellFormed(disk.live)
  {
  }

  lemma EffectInstalls(scene: Scene, report: Report, journal: seq<Record>, disk: Disk, start: nat)
    requires Effect(scene.Call({}), scene.live, report, journal, disk.live, disk.undo, disk.trace, start)
    requires report == Finished(Committed) && MakePlan(scene.live, scene.Call({}).archive).Success?
    requires scene.Call({}).JobFor(scene.live) == JobIn(scene)
    ensures JobIn(scene).InstalledIn(disk.live)
  {
    hide MakePlan, JobIn, Job.InstalledIn, SafeThroughout, Job.Safe;
  }

  lemma ThreeSteps(trees: seq<Tree>, steps: seq<Step>)
    requires |trees| == 4 && |steps| == 3
    requires Follows(trees[0], steps[0], trees[1]) && Follows(trees[1], steps[1], trees[2])
    requires Follows(trees[2], steps[2], trees[3])
    ensures History(trees, steps)
  {
    hide Follows;
  }

  /** One call, and the host it leaves to the next one. */
  method InstallNext(disk: Disk, scene: Scene, entry: Path) returns (ghost step: Step, next: Scene)
    requires TopLevel(scene) && disk.live == scene.live && disk.Valid() && !disk.lock
    requires forall n :: !disk.fault(n) && !disk.full(n) && !disk.barred(n)
    requires |entry| == 1 && Plain(entry[0])
    modifies disk
    ensures disk.Valid() && !disk.lock && TopLevel(next) && disk.live == next.live
    ensures next.extra == scene.entry && next.entry == entry && (["x"] in next.files <==> ["x"] in disk.live.files)
    ensures step.request == scene.Call({}) && step.Committed() && Follows(old(disk.live), step, disk.live)
    ensures ["x"] in disk.live.files <==> scene.entry == ["x"] || (["x"] in scene.files && scene.extra != ["x"])
  {
    hide TopLevel, JobIn, Job.InstalledIn, WellFormed, Follows, Scene.Call, REQUIRED_FILES, Plain, KeptFile, Ours;
    step := InstallOn(disk, scene);
    NextFits(scene, disk.live, entry);
    FilesAfter(scene, disk.live, ["x"]);
    StartParts();
    PlainNames("x");
    next := After(scene, disk.live, entry);
  }

  /** Three installations: first `a`, then `x` instead, then `a` again. */
  method InstallThree(disk: Disk, first: Scene) returns (ghost trees: seq<Tree>, ghost steps: seq<Step>)
    requires TopLevel(first) && disk.live == first.live && disk.Valid() && !disk.lock
    requires first.extra == ["a"] && first.entry == ["a"] && ["x"] in first.files
    requires forall n :: !disk.fault(n) && !disk.full(n) && !disk.barred(n)
    modifies disk
    ensures |trees| == 4 && |steps| == 3 && History(trees, steps) && trees[0] == first.live
    ensures forall i | 0 <= i < 3 :: steps[i].Committed()
    ensures steps[0].request.archive == steps[2].request.archive
    ensures ["x"] in steps[1].request.archive.tree.files && ["x"] !in steps[0].request.archive.tree.files
    ensures ["x"] in trees[1].files && ["x"] !in trees[3].files
  {
    hide TopLevel, WellFormed, Follows, Scene.Call, History, REQUIRED_FILES, Plain, KeptFile;
    StartParts();
    var second, third, last;
    ghost var a, b, c;
    ghost var t0 := disk.live;
    a, second := InstallNext(disk, first, ["x"]);
    ghost var t1 := disk.live;
    b, third := InstallNext(disk, second, ["a"]);
    ghost var t2 := disk.live;
    c, last := InstallNext(disk, third, ["x"]);
    trees, steps := [t0, t1, t2, disk.live], [a, b, c];
    ThreeSteps(trees, steps);
    SameShipment(first, third);
    Ships(first, ["x"]);
    Ships(second, ["x"]);
  }

  /** All three succeed, and the file that the host had besides the first A, and that only B ships, is not there
      after the second A. */
  method InstallAgain() returns (ghost trees: seq<Tree>, ghost steps: seq<Step>)
    ensures |trees| == 4 && |steps| == 3 && History(trees, steps)
    ensures forall i | 0 <= i < 3 :: steps[i].Committed()
    ensures steps[0].request.archive == steps[2].request.archive
    ensures ["x"] in steps[1].request.archive.tree.files && ["x"] !in steps[0].request.archive.tree.files
    ensures ["x"] in trees[1].files && ["x"] !in trees[3].files
  {
    hide TopLevel, WellFormed, History, Host, REQUIRED_FILES, Start;
    StartFits();
    StartParts();
    StartIsTree();
    var disk := new Disk(Start().live, n => false, n => false, n => false, n => 100 + n, (n, p) => false);
    trees, steps := InstallThree(disk, Start());
  }

  lemma StartIsTree()
    ensures WellFormed(Start().live)
  {
    hide Host, WellFormed, REQUIRED_FILES, DIRECTORIES, Scene.Named, Scene.Stands;
    StartFits();
    LiveIsTree(Start());
  }
}
