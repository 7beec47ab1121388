/** Sequences of installations over one release root: what the manifest on disk says after any mixture of
    successful, refused and rolled-back calls, and what repeated installation leaves. */
module ReleaseHistory {
  import opened Wrappers
  import opened Paths
  import opened FileSystem
  import opened ReleaseSpec
  import opened InstallSteps
  import opened ReleaseInstaller
  import opened ReleasePlan
  import opened ReleaseInstall

  /** One call; `outcome` is None when it left the tree alone. */
  datatype Step = Step(request: Request, outcome: Option<Outcome>, journal: seq<Record>) {
    predicate Committed() {
      outcome == Some(Outcome.Committed)
    }
  }

  /** A call that did not end in a failed rollback took the tree from `before` to `after`. */
  ghost predicate Follows(before: Tree, step: Step, after: Tree) {
    && WellFormed(after) && (forall c :: Sha256(step.request.digest(c)))
    && match step.outcome {
         case None => after == before
         case Some(RecoveryRequired(_)) => false
         case Some(outcome) =>
           && step.request.Valid(before) && MakePlan(before, step.request.archive).Success?
           && Left(step.request.JobFor(before), outcome, step.journal, after)
       }
  }

  ghost predicate History(trees: seq<Tree>, steps: seq<Step>) {
    |trees| == |steps| + 1 && forall i | 0 <= i < |steps| :: Follows(trees[i], steps[i], trees[i + 1])
  }

  /** Every call of the installer is such a step, unless its rollback failed. */
  lemma CallFollows(request: Request, before: Tree, report: Report, journal: seq<Record>,
                    live: Tree, undo: Tree, trace: seq<Snapshot>, start: nat)
    requires Effect(request, before, report, journal, live, undo, trace, start) && request.Valid(before)
    requires WellFormed(live) && forall c :: Sha256(request.digest(c))
    requires report.Mutated() ==> !report.outcome.RecoveryRequired?
    ensures Follows(before, Step(request, if report.Mutated() then Some(report.outcome) else None, journal), live)
  {
    hide MakePlan, Sha256, Left, WellFormed, SafeThroughout, Job.Safe;
  }

  /** The release a successful call installs. */
  function Release(step: Step): seq<Path> {
    Sort(step.request.archive.files)
  }

  /** The last release that was installed successfully. */
  function LastRelease(steps: seq<Step>): Option<seq<Path>> {
    if steps == [] then None
    else if steps[|steps| - 1].Committed() then Some(Release(steps[|steps| - 1]))
    else LastRelease(steps[..|steps| - 1])
  }

  /** The job of a step that changed something. */
  ghost predicate Incomplete(before: Tree, step: Step, p: Path) {
    MakePlan(before, step.request.archive).Success? && step.request.JobFor(before).UnderStale(p)
  }

  /** The manifest on disk is of the current schema and of the revision installed, and lists each file of the release,
      in order, with the digest of that file's content. */
  ghost predicate Says(step: Step, after: Tree) {
    var release, files := Release(step), step.request.archive.tree.files;
    && MANIFEST in after.files
    && var m := after.files[MANIFEST].content;
       && m.Manifest? && m.schema == "amf.release_manifest/v2" && m.revision == step.request.revision
       && |m.files| == |release|
       && forall i | 0 <= i < |release| ::
            && release[i] in files
            && m.files[i] == Digest(Join(release[i]), step.request.digest(files[release[i]].content))
  }

  /** After a success the manifest lists exactly the release; its files are in place, except those that lie
      under a stale name. */
  lemma CommittedManifest(before: Tree, step: Step, after: Tree)
    requires Follows(before, step, after) && step.Committed()
    ensures ReadPreviousManifest(after) == Success(Release(step)) && Ascending(Release(step))
    ensures Says(step, after)
    ensures MANIFEST !in step.request.archive.tree.files
    ensures forall p :: p in Release(step) <==> p in step.request.archive.tree.files
    ensures forall p | p in Release(step) ::
      CodePath(p) && if Incomplete(before, step, p) then p !in after.files
                     else Holds(after.files, p, step.request.archive.tree.files[p])
  {
    hide MakePlan, Sha256, WellFormed, Sort, ManifestOf, ReadManifest, Identities, CodePath, Ascending, NoRepeats,
      Job.UnderStale, Job.Obstructed, Job.Blocked, Job.Accepts;
    var request := step.request;
    var job := request.JobFor(before);
    CurrentIsSortedListing(before, request.archive);
    ManifestIsNeither(job);
    assert forall p | p in job.current :: Sha256(request.DigestAt(p));
    WrittenReadsBack(request.revision, job.current, request.DigestAt);
    WrittenSays(request.revision, job.current, request.DigestAt);
    assert MANIFEST !in after.dirs by { FilesAreNotDirectories(after, MANIFEST); }
    forall p | p in Release(step)
      ensures if job.UnderStale(p) then p !in after.files else Holds(after.files, p, request.archive.tree.files[p])
    {
      ShippedIsNew(job, p);
      assert Same(after.files, job.Installed(), p);
    }
  }

  lemma FilesAreNotDirectories(t: Tree, p: Path)
    requires WellFormed(t) && p in t.files
    ensures p !in t.dirs
  {
  }

  /** A rolled-back call leaves the manifest as it was, lost backups or not. */
  lemma RolledBackManifest(before: Tree, step: Step, after: Tree)
    requires Follows(before, step, after) && !step.Committed()
    ensures ReadPreviousManifest(after) == ReadPreviousManifest(before)
  {
    hide MakePlan, Sha256, ManifestOf, ReadManifest, Identities;
    if step.outcome.Some? {
      var job := step.request.JobFor(before);
      ManifestIsNeither(job);
      if MANIFEST in Lost(step.journal) { LostIsClobbered(job, step.journal, MANIFEST); }
      assert Same(after.files, job.before.files - Lost(step.journal), MANIFEST);
      assert Exists(after, MANIFEST) <==> Exists(before, MANIFEST) by { PlanFacts(before, step.request.archive); }
    }
  }

  /** After any history the manifest on disk lists exactly the last successful release, in strictly
      ascending order; before the first success it is the one found at the start. */
  lemma {:induction false} ManifestTracks(trees: seq<Tree>, steps: seq<Step>)
    requires History(trees, steps)
    ensures match LastRelease(steps)
      case None => ReadPreviousManifest(trees[|steps|]) == ReadPreviousManifest(trees[0])
      case Some(release) => ReadPreviousManifest(trees[|steps|]) == Success(release) && Ascending(release)
    decreases |steps|
  {
    hide Follows, ReadPreviousManifest, Ascending, Sort;
    if steps != [] {
      var n := |steps| - 1;
      Shorter(trees, steps);
      if steps[n].Committed() {
        CommittedManifest(trees[n], steps[n], trees[n + 1]);
      } else {
        ManifestTracks(trees[..n + 1], steps[..n]);
        RolledBackManifest(trees[n], steps[n], trees[n + 1]);
      }
    }
  }

  lemma Shorter(trees: seq<Tree>, steps: seq<Step>)
    requires History(trees, steps) && steps != []
    ensures History(trees[..|steps|], steps[..|steps| - 1])
    ensures Follows(trees[|steps| - 1], steps[|steps| - 1], trees[|steps|])
  {
    hide Follows;
  }

  // ---- Files that no release ever shipped ----

  /** p belongs to no release of the history, nor to the one found at the start, and is no temporary name. */
  ghost predicate NeverShipped(start: Tree, steps: seq<Step>, p: Path) {
    && p != MANIFEST
    && (ReadPreviousManifest(start).Success? ==> p !in ReadPreviousManifest(start).value)
    && (forall i | 0 <= i < |steps| :: p !in steps[i].request.archive.tree.files && p != steps[i].request.temporary)
  }

  lemma StepSpares(before: Tree, step: Step, after: Tree, p: Path)
    requires Follows(before, step, after) && p != MANIFEST && p != step.request.temporary
    requires p !in step.request.archive.tree.files
    requires ReadPreviousManifest(before).Success? ==> p !in ReadPreviousManifest(before).value
    ensures Same(after.files, before.files, p)
  {
    hide MakePlan, Sha256, ManifestOf, ReadPreviousManifest, Identities, Job.Admitted, Job.Layered, Job.Accepts,
      Archive.Listed, Overwritten, Lost, WellFormed, FreshName, Protected, Ancestor, EmptyDirectory;
    if step.outcome.Some? {
      var job := step.request.JobFor(before);
      PlanFacts(before, step.request.archive);
      if step.Committed() {
        assert Same(after.files, job.Installed(), p);
      } else {
        if p in Lost(step.journal) { LostIsClobbered(job, step.journal, p); }
        assert Same(after.files, job.before.files - Lost(step.journal), p);
      }
    }
  }

  lemma {:induction false} LastReleaseSpares(trees: seq<Tree>, steps: seq<Step>, p: Path)
    requires History(trees, steps) && NeverShipped(trees[0], steps, p)
    ensures ReadPreviousManifest(trees[|steps|]).Success? ==> p !in ReadPreviousManifest(trees[|steps|]).value
    decreases |steps|
  {
    hide Follows, ReadPreviousManifest, Ascending, Sort;
    if steps != [] {
      var n := |steps| - 1;
      Shorter(trees, steps);
      if steps[n].Committed() {
        CommittedManifest(trees[n], steps[n], trees[n + 1]);
      } else {
        assert NeverShipped(trees[..n + 1][0], steps[..n], p);
        LastReleaseSpares(trees[..n + 1], steps[..n], p);
        RolledBackManifest(trees[n], steps[n], trees[n + 1]);
      }
    }
  }

  /** A file that no release ever shipped keeps its inode and its bytes through any history. */
  lemma {:induction false} NeverShippedKept(trees: seq<Tree>, steps: seq<Step>, p: Path)
    requires History(trees, steps) && NeverShipped(trees[0], steps, p)
    ensures Same(trees[|steps|].files, trees[0].files, p)
    decreases |steps|
  {
    hide Follows, ReadPreviousManifest;
    if steps != [] {
      var n := |steps| - 1;
      Shorter(trees, steps);
      assert NeverShipped(trees[..n + 1][0], steps[..n], p);
      NeverShippedKept(trees[..n + 1], steps[..n], p);
      LastReleaseSpares(trees[..n + 1], steps[..n], p);
      StepSpares(trees[n], steps[n], trees[n + 1], p);
    }
  }

  /** Environment, runtime and data, with all that is below them, come through any history as they were: same inodes,
      same bytes. */
  lemma {:induction false} PersistentKept(trees: seq<Tree>, steps: seq<Step>, p: Path)
    requires History(trees, steps) && p != [] && p[0] in {".env", ".env.runtime", "runtime", "var"}
    ensures Same(trees[|steps|].files, trees[0].files, p) && Same(trees[|steps|].dirs, trees[0].dirs, p)
    decreases |steps|
  {
    if steps != [] {
      var n := |steps| - 1;
      hide Follows;
      Shorter(trees, steps);
      PersistentKept(trees[..n + 1], steps[..n], p);
      PersistentStep(trees[n], steps[n], trees[n + 1], p);
    }
  }

  lemma PersistentStep(before: Tree, step: Step, after: Tree, p: Path)
    requires Follows(before, step, after) && p != [] && p[0] in {".env", ".env.runtime", "runtime", "var"}
    ensures Same(after.files, before.files, p) && Same(after.dirs, before.dirs, p)
  {
    hide MakePlan, Sha256, WellFormed, ManifestOf, Job.Admitted, Job.Accepts, Job.InstalledIn, Job.RestoredIn;
    assert Protected(p) by {
      assert ".env"[1] == MANIFEST_NAME[1] ==> |".env"| < |MANIFEST_NAME|;
      assert MANIFEST_NAME[0] == '.' && "runtime"[0] == 'r' && "var"[0] == 'v' && |".env.runtime"| < |MANIFEST_NAME|;
    }
  }

  // ---- The digests on record ----

  /** Every file that the manifest lists with a digest, and that is on disk, has that digest. */
  ghost predicate DigestsHold(t: Tree, digest: Content -> string) {
    MANIFEST in t.files && t.files[MANIFEST].content.Manifest?
    && t.files[MANIFEST].content.schema == "amf.release_manifest/v2" ==>
      forall e | e in t.files[MANIFEST].content.files && e.Digest? && Split(e.path) in t.files ::
        e.sha256 == digest(t.files[Split(e.path)].content)
  }

  /** Whatever is installed, refused and rolled back, lost backups included: the digests on record hold. */
  lemma {:induction false} DigestsStay(trees: seq<Tree>, steps: seq<Step>, digest: Content -> string)
    requires History(trees, steps) && forall i | 0 <= i < |steps| :: steps[i].request.digest == digest
    requires DigestsHold(trees[0], digest)
    ensures DigestsHold(trees[|steps|], digest)
    decreases |steps|
  {
    hide Follows, DigestsHold;
    if steps != [] {
      var n := |steps| - 1;
      Shorter(trees, steps);
      DigestsStay(trees[..n + 1], steps[..n], digest);
      if steps[n].Committed() {
        CommitDigests(trees[n], steps[n], trees[n + 1]);
      } else {
        RollbackDigests(trees[n], steps[n], trees[n + 1]);
      }
    }
  }

  lemma CommitDigests(before: Tree, step: Step, after: Tree)
    requires Follows(before, step, after) && step.Committed()
    ensures DigestsHold(after, step.request.digest)
  {
    hide Follows, ReadPreviousManifest, Sort, Ascending, Incomplete, Split, Join, CodePath;
    CommittedManifest(before, step, after);
    var release, m := Release(step), after.files[MANIFEST].content;
    forall e | e in m.files && e.Digest? && Split(e.path) in after.files
      ensures e.sha256 == step.request.digest(after.files[Split(e.path)].content)
    {
      var i :| 0 <= i < |m.files| && m.files[i] == e;
      assert release[i] in release;
      CodePathSplits(release[i]);
    }
  }

  /** A path that the manifest lists is not one that a call creates for a while. */
  lemma ListedIsLasting(before: Tree, step: Step, after: Tree, e: ManifestEntry)
    requires Follows(before, step, after) && step.outcome.Some? && MANIFEST in before.files
    requires before.files[MANIFEST].content.Manifest? && e in before.files[MANIFEST].content.files && e.Digest?
    requires before.files[MANIFEST].content.schema == "amf.release_manifest/v2"
    ensures Split(e.path) != step.request.temporary
  {
    hide MakePlan, Sha256, ManifestOf, Identities, Archive.Listed, WellFormed, Left, ReadManifest, Split, Join,
      CodePath, Ascending;
    PlanFacts(before, step.request.archive);
    var content := before.files[MANIFEST].content;
    var previous := ReadManifest(content).value;
    assert ReadPreviousManifest(before) == Success(previous);
    ManifestAccepts(content, previous);
    var i :| 0 <= i < |content.files| && content.files[i] == e;
    assert previous[i] in previous;
    CodePathSplits(previous[i]);
    assert SCHEMA[|SCHEMA| - 1] != LEGACY_SCHEMA[|SCHEMA| - 1];
    CurrentIsSortedListing(before, step.request.archive);
  }

  lemma RollbackDigests(before: Tree, step: Step, after: Tree)
    requires Follows(before, step, after) && !step.Committed() && DigestsHold(before, step.request.digest)
    ensures DigestsHold(after, step.request.digest)
  {
    if step.outcome.Some? {
      var job := step.request.JobFor(before);
      hide MakePlan, Sha256, ManifestOf, ReadManifest, Identities, Archive.Listed, FreshName, Job.Admitted, Job.Accepts,
        WellFormed, Lost, Split, Job.Obstructed, Job.Blocked, Protected, Ancestor;
      assert MANIFEST != job.temporary by { ManifestIsNeither(job); }
      assert Same(after.files, job.before.files - Lost(step.journal), MANIFEST);
      if MANIFEST in after.files && after.files[MANIFEST].content.Manifest?
         && after.files[MANIFEST].content.schema == "amf.release_manifest/v2" {
        var m := after.files[MANIFEST].content;
        forall e | e in m.files && e.Digest? && Split(e.path) in after.files
          ensures e.sha256 == step.request.digest(after.files[Split(e.path)].content)
        {
          ListedIsLasting(before, step, after, e);
          assert Same(after.files, job.before.files - Lost(step.journal), Split(e.path));
        }
      }
    }
  }

  // ---- Listed files stay on disk ----

  /** Every file the manifest lists is there. */
  ghost predicate InPlace(t: Tree) {
    ReadPreviousManifest(t).Success? ==> forall p | p in ReadPreviousManifest(t).value :: p in t.files
  }

  /** The rollback of this step, if there was one, had no shared backup name to lose a file to. */
  ghost predicate Lossless(before: Tree, step: Step) {
    step.outcome.Some? && MakePlan(before, step.request.archive).Success? ==>
      forall p :: !step.request.JobFor(before).Clobbered(p)
  }

  lemma CommitInPlace(before: Tree, step: Step, after: Tree)
    requires Follows(before, step, after) && InPlace(before) && step.Committed()
    ensures InPlace(after)
  {
    hide MakePlan, Sha256, ManifestOf, ReadPreviousManifest, Sort, Left, Ascending, Archive.Listed, FreshName,
      Job.UnderStale;
    CommittedManifest(before, step, after);
    var request := step.request;
    PlanFacts(before, request.archive);
    PlanLayers(before, request.archive, request.temporary, request.revision, request.DigestAt);
  }

  lemma StepInPlace(before: Tree, step: Step, after: Tree)
    requires Follows(before, step, after) && InPlace(before) && Lossless(before, step)
    ensures InPlace(after)
  {
    hide MakePlan, Sha256, ManifestOf, ReadPreviousManifest, Identities, Archive.Listed, FreshName, Job.Clobbered,
      Job.Admitted, Job.Accepts, Job.Obstructed, Job.Blocked, Job.Complete;
    if step.Committed() {
      CommitInPlace(before, step, after);
    } else {
      RolledBackManifest(before, step, after);
      if step.outcome.Some? {
        var job := step.request.JobFor(before);
        RollbackRestores(job, step.journal, after);
        forall p | p in before.files ensures p in after.files {
          assert p != job.temporary by { TemporaryIsFree(job); }
          assert Same(after.files, before.files, p);
        }
      }
    }
  }

  /** As long as no rollback loses a file, every listed file stays on disk, and the order that the stale
      step relies on holds for the next archive without being checked. */
  lemma {:induction false} NextIsLayered(trees: seq<Tree>, steps: seq<Step>, next: Request)
    requires History(trees, steps) && InPlace(trees[0])
    requires forall i | 0 <= i < |steps| :: Lossless(trees[i], steps[i])
    ensures InPlace(trees[|steps|])
    ensures WellFormed(trees[|steps|]) && next.archive.Listed() && MakePlan(trees[|steps|], next.archive).Success?
            ==> next.JobFor(trees[|steps|]).Layered()
    decreases |steps|
  {
    hide Follows, ReadPreviousManifest, MakePlan, Job.Layered, WellFormed, Archive.Listed, InPlace;
    if steps != [] {
      var n := |steps| - 1;
      Shorter(trees, steps);
      NextIsLayered(trees[..n + 1], steps[..n], next);
      StepInPlace(trees[n], steps[n], trees[n + 1]);
    }
    ListedLayers(trees[|steps|], next);
  }

  lemma ListedLayers(t: Tree, next: Request)
    requires InPlace(t)
    ensures WellFormed(t) && next.archive.Listed() && MakePlan(t, next.archive).Success? ==> next.JobFor(t).Layered()
  {
    hide ReadPreviousManifest, MakePlan, Job.Layered, WellFormed, Archive.Listed;
    if WellFormed(t) && next.archive.Listed() && MakePlan(t, next.archive).Success? {
      PlanFacts(t, next.archive);
      PlanLayers(t, next.archive, next.temporary, next.revision, next.DigestAt);
    }
  }

  // ---- Installing A, then B, then A again ----

  predicate SameBytes(a: map<Path, File>, b: map<Path, File>, p: Path) {
    (p in a <==> p in b) && (p in a ==> a[p].content == b[p].content)
  }

  /** After a success, the files other than the manifest. */
  lemma AfterCommit(before: Tree, previous: seq<Path>, step: Step, after: Tree, p: Path)
    requires Follows(before, step, after) && step.Committed() && p != MANIFEST
    requires ReadPreviousManifest(before) == Success(previous)
    ensures var shipped := step.request.archive.tree.files;
      if p in shipped then if Incomplete(before, step, p) then p !in after.files else Holds(after.files, p, shipped[p])
      else if p in previous then p !in after.files
      else Same(after.files, before.files, p)
  {
    hide MakePlan, Sha256, ManifestOf, ReadPreviousManifest, Identities, Archive.Listed, FreshName, Job.UnderStale,
      Job.Accepts, Job.Obstructed, Job.Blocked, Protected, WellFormed, Ancestor, EmptyDirectory, Sort, Without;
    var job := step.request.JobFor(before);
    PlanFacts(before, step.request.archive);
    CurrentIsSortedListing(before, step.request.archive);
    assert Same(after.files, job.Installed(), p);
    if p in job.shipped { ShippedIsNew(job, p); }
  }

  /** What the previous manifest listed and the release does not ship is gone, whatever it was. */
  lemma StaleIsGone(before: Tree, previous: seq<Path>, step: Step, after: Tree, p: Path)
    requires Follows(before, step, after) && step.Committed() && ReadPreviousManifest(before) == Success(previous)
    requires p in previous && p !in step.request.archive.tree.files
    ensures p !in after.files && p !in after.dirs
  {
    hide MakePlan, Sha256, ManifestOf, ReadPreviousManifest, Identities, Archive.Listed, FreshName, Job.UnderStale,
      Job.Accepts, Job.Obstructed, Job.Blocked, Protected, WellFormed, Ancestor, EmptyDirectory, Sort, Without,
      Job.Installed;
    PlanFacts(before, step.request.archive);
    CurrentIsSortedListing(before, step.request.archive);
  }

  /** Where a stale name lies above a shipped file, the previous release had not installed the stale file:
      had it been there, the checks would have found a file where they need a directory. */
  lemma IncompleteWasMissing(before: Tree, step: Step, after: Tree, p: Path) returns (q: Path)
    requires Follows(before, step, after) && step.Committed() && Incomplete(before, step, p)
    requires p in step.request.archive.tree.files
    ensures q < p && q != [] && q !in before.files
    ensures ReadPreviousManifest(before).Success? && q in ReadPreviousManifest(before).value
  {
    hide MakePlan, Sha256, ManifestOf, ReadPreviousManifest, Identities, Archive.Listed, FreshName, Without, WellFormed;
    var job := step.request.JobFor(before);
    PlanFacts(before, step.request.archive);
    var k :| 0 < k < |p| && p[..k] in job.stale;
    q := p[..k];
    assert job.Target(p) && q !in before.files;
  }

  lemma NoFileBelowFile(before: Tree, step: Step, after: Tree, r: Path, p: Path)
    requires Follows(before, step, after) && step.Committed()
    requires r in step.request.archive.tree.files && p in step.request.archive.tree.files
    ensures !(r < p)
  {
    hide MakePlan, Sha256, ManifestOf, Identities, FreshName, Left;
    if r != p { NotAbove(step.request.archive.tree, r, p); }
  }

  /** When B follows A, whatever A had installed at a name of A is complete again after the second A. */
  lemma SecondIsComplete(trees: seq<Tree>, steps: seq<Step>, p: Path)
    requires History(trees, steps) && |steps| == 3 && forall i | 0 <= i < 3 :: steps[i].Committed()
    requires forall p :: SameBytes(steps[0].request.archive.tree.files, steps[2].request.archive.tree.files, p)
    requires p in steps[2].request.archive.tree.files
    ensures !Incomplete(trees[2], steps[2], p)
  {
    hide Follows, ReadPreviousManifest, Sort, Ascending, Incomplete;
    var a, b := steps[0].request.archive.tree.files, steps[1].request.archive.tree.files;
    CommittedManifest(trees[0], steps[0], trees[1]);
    CommittedManifest(trees[1], steps[1], trees[2]);
    if Incomplete(trees[2], steps[2], p) {
      var q := IncompleteWasMissing(trees[2], steps[2], trees[3], p);
      assert q in Release(steps[1]) && Incomplete(trees[1], steps[1], q);
      var r := IncompleteWasMissing(trees[1], steps[1], trees[2], q);
      assert r in Release(steps[0]) && r in a;
      assert SameBytes(a, steps[2].request.archive.tree.files, r);
      assert r < p;
      NoFileBelowFile(trees[2], steps[2], trees[3], r, p);
    }
  }

  /** Installing A, B and A again gives the tree that installing A gave, byte for byte, exactly when all
      files of A were in place after the first A and none of the files that only B ships was there. */
  lemma BackToA(trees: seq<Tree>, steps: seq<Step>)
    requires History(trees, steps) && |steps| == 3 && forall i | 0 <= i < 3 :: steps[i].Committed()
    requires forall p :: SameBytes(steps[0].request.archive.tree.files, steps[2].request.archive.tree.files, p)
    ensures var a, b := steps[0].request.archive.tree.files, steps[1].request.archive.tree.files;
      (forall p | p != MANIFEST :: SameBytes(trees[1].files, trees[3].files, p))
      <==> ((forall p | p in a :: p in trees[1].files) && (forall p | p in b && p !in a :: p !in trees[1].files))
    ensures ReadPreviousManifest(trees[3]) == Success(Release(steps[2])) && Ascending(Release(steps[2]))
    ensures forall p :: p in Release(steps[2]) <==> p in Release(steps[0])
  {
    hide Follows, ReadPreviousManifest, Sort, Ascending, Incomplete;
    var a, b := steps[0].request.archive.tree.files, steps[1].request.archive.tree.files;
    CommittedManifest(trees[0], steps[0], trees[1]);
    CommittedManifest(trees[1], steps[1], trees[2]);
    CommittedManifest(trees[2], steps[2], trees[3]);
    forall p ensures p in Release(steps[2]) <==> p in Release(steps[0]) {
      assert SameBytes(a, steps[2].request.archive.tree.files, p);
    }
    forall p | p != MANIFEST
      ensures SameBytes(trees[1].files, trees[3].files, p)
        <==> ((p in a ==> p in trees[1].files) && (p in b && p !in a ==> p !in trees[1].files))
    {
      SameAgain(trees, steps, p);
    }
  }

  lemma SameAgain(trees: seq<Tree>, steps: seq<Step>, p: Path)
    requires History(trees, steps) && |steps| == 3 && forall i | 0 <= i < 3 :: steps[i].Committed()
    requires forall p :: SameBytes(steps[0].request.archive.tree.files, steps[2].request.archive.tree.files, p)
    requires p != MANIFEST
    ensures var a, b := steps[0].request.archive.tree.files, steps[1].request.archive.tree.files;
      SameBytes(trees[1].files, trees[3].files, p)
      <==> ((p in a ==> p in trees[1].files) && (p in b && p !in a ==> p !in trees[1].files))
  {
    hide Follows, ReadPreviousManifest, Sort, Ascending, Incomplete;
    var a, b := steps[0].request.archive.tree.files, steps[1].request.archive.tree.files;
    CommittedManifest(trees[0], steps[0], trees[1]);
    CommittedManifest(trees[1], steps[1], trees[2]);
    assert SameBytes(a, steps[2].request.archive.tree.files, p);
    AfterCommit(trees[1], Release(steps[0]), steps[1], trees[2], p);
    AfterCommit(trees[2], Release(steps[1]), steps[2], trees[3], p);
    if p in a { SecondIsComplete(trees, steps, p); }
  }
}
