/** The entry points of the release installer: planning, staging, the run itself, and the clean-up that
    follows it under the deploy lock. */
module ReleaseInstall {
  import opened Wrappers
  import opened Paths
  import opened FileSystem
  import opened ReleaseSpec
  import opened RollbackNames
  import opened InstallSteps
  import opened ReleaseInstaller
  import opened ReleasePlan

  /** What a call reports. Escaped: the run had the given outcome, but a failure in the clean-up after
      it replaced the report. */
  datatype Report =
    | Planned(plan: Plan) | Refused(why: Refusal) | Finished(outcome: Outcome) | Escaped(outcome: Outcome)
  {
    predicate Mutated() {
      Finished? || Escaped?
    }

    /** The rollback was stopped, whatever was reported in the end. */
    predicate Stuck() {
      Mutated() && outcome.RecoveryRequired?
    }
  }

  /** The finally block: enforceDeploymentRoot, then the removal of the stage unless the rollback was
      stopped; the first failure there replaces whatever the try block was about to report. */
  function ReportOf(outcome: Outcome, enforceFault: bool, discardFault: bool): Report {
    if enforceFault || (!outcome.RecoveryRequired? && discardFault) then Escaped(outcome) else Finished(outcome)
  }

  /** One request to install, with the oracles it depends on: the name drawn for the temporary manifest,
      the digests, what a failed write of the manifest leaves, and the hooks that stop the run. */
  datatype Request = Request(archive: Archive, revision: string, dryRun: bool, backupExists: bool,
                             temporary: Path, digest: Content -> string, partial: Content, hooks: set<Point>) {
    ghost predicate Valid(live: Tree) {
      && WellFormed(live) && archive.Listed()
      && (MakePlan(live, archive).Success? ==> FreshName(live, archive, MakePlan(live, archive).value, temporary))
    }

    /** fileSha256 of an unpacked file. */
    function DigestAt(p: Path): string {
      if p in archive.tree.files then digest(archive.tree.files[p].content) else ""
    }

    function JobFor(live: Tree): Job
      requires MakePlan(live, archive).Success?
    {
      JobOf(live, archive, MakePlan(live, archive).value, temporary, revision, DigestAt)
    }
  }

  /** What the outcome of a mutation says about the tree it leaves. The temporary manifest is left behind
      exactly if a fault hit the calls between its creation and its renaming. */
  ghost predicate Left(job: Job, outcome: Outcome, journal: seq<Record>, live: Tree) {
    && job.Admitted() && job.Accepts(journal)
    && (outcome.Committed? ==> job.InstalledIn(live) && !job.Obstructed() && !job.Blocked())
    && (outcome.RolledBack? ==> job.RestoredIn(journal, live))
    && (!outcome.Committed? ==> (job.temporary in live.files <==> outcome.cause.ManifestTemporaryFault?))
    && (!outcome.Committed? && outcome.cause.Late() ==> job.Complete(journal))
    && (forall p | Protected(p) :: Same(live.files, job.before.files, p) && Same(live.dirs, job.before.dirs, p))
  }

  /** The files of a finished installation. */
  ghost predicate Done(job: Job, files: map<Path, File>) {
    && (forall p | p != MANIFEST :: Same(files, job.Installed(), p))
    && MANIFEST in files && files[MANIFEST].content == job.manifest
  }

  /** At every instant since `start` the originals could be recovered, or the installation was finished. */
  ghost predicate SafeThroughout(job: Job, outcome: Outcome, trace: seq<Snapshot>, start: nat) {
    && start <= |trace|
    && forall k | start <= k < |trace| :: job.Safe(trace[k]) || (outcome.Committed? && Done(job, trace[k].live))
  }

  /** What a call does to the release tree, whatever faults occur. After a rollback that was stopped, the
      originals are still there, between the release tree and the rollback tree. */
  ghost predicate Effect(request: Request, before: Tree, report: Report, journal: seq<Record>,
                         live: Tree, undo: Tree, trace: seq<Snapshot>, start: nat)
  {
    if report.Mutated() then
      && MakePlan(before, request.archive).Success? && !request.dryRun
      && Left(request.JobFor(before), report.outcome, journal, live)
      && SafeThroughout(request.JobFor(before), report.outcome, trace, start)
      && (report.outcome.RecoveryRequired? ==> request.JobFor(before).Safe(Snapshot(live.files, undo.files)))
    else
      live == before && start <= |trace| && forall k | start <= k < |trace| :: trace[k].live == before.files
  }

  /** What a stopped rollback leaves of an original: at its own name or at its backup's, unless another original has
      the same backup name; files the installer has nothing to do with are untouched. */
  lemma StuckKeepsOriginals(request: Request, before: Tree, report: Report, journal: seq<Record>,
                            live: Tree, undo: Tree, trace: seq<Snapshot>, start: nat, p: Path)
    requires Effect(request, before, report, journal, live, undo, trace, start) && report.Stuck()
    requires p in before.files
    ensures var job := request.JobFor(before);
      if !job.Target(p) then Holds(live.files, p, before.files[p])
      else if forall q | job.Target(q) && q in before.files && q != p :: job.Backup(q) != job.Backup(p)
      then Holds(live.files, p, before.files[p]) || Holds(undo.files, job.Backup(p), before.files[p])
      else true
  {
    hide MakePlan, SafeThroughout;
    var job := request.JobFor(before);
    TemporaryIsFree(job);
    assert p != job.temporary;
    assert job.Safe(Snapshot(live.files, undo.files));
    hide Left, Job.Admitted;
  }

  /** What a call can meet besides faults: no room for the manifest, and a release root whose mode cannot be set,
      when it is enforced after the manifest and in the finally block. */
  datatype Mishaps = Mishaps(full: bool, barred: bool, barredAfter: bool)

  /** Such mishaps, each as it was at some moment of a call. */
  ghost predicate Met(disk: Disk, m: Mishaps, from: nat, until: nat) {
    exists w, r, z :: from <= w <= until && from <= r <= until && from <= z <= until
      && m == Mishaps(disk.full(w), disk.barred(r), disk.barred(z))
  }

  lemma AnyMishap(disk: Disk, from: nat, until: nat)
    requires from <= until
    ensures exists m :: Met(disk, m, from, until)
  {
    assert Met(disk, Mishaps(disk.full(from), disk.barred(from), disk.barred(from)), from, until);
  }

  /** The root is enforced once more at moment z. */
  lemma LaterMishap(disk: Disk, m: Mishaps, from: nat, until: nat, z: nat, later: nat)
    requires Met(disk, m, from, until) && until <= later && from <= z <= later
    ensures Met(disk, m.(barredAfter := disk.barred(z)), from, later)
  {
    var w, r, y :| from <= w <= until && from <= r <= until && from <= y <= until
      && m == Mishaps(disk.full(w), disk.barred(r), disk.barred(y));
    assert m.(barredAfter := disk.barred(z)) == Mishaps(disk.full(w), disk.barred(r), disk.barred(z));
  }

  /** A longer call. */
  lemma SameMishap(disk: Disk, from: nat, until: nat, earlier: nat, later: nat, m: Mishaps)
    requires Met(disk, m, from, until) && earlier <= from && until <= later
    ensures Met(disk, m, earlier, later)
  {
  }

  /** The outcome of a mutation that no fault hits. */
  ghost predicate Unfaulted(job: Job, hooks: set<Point>, outcome: Outcome, m: Mishaps) {
    && (outcome.Committed? <==>
          && !m.full && !m.barred && !job.Obstructed() && !job.Blocked()
          && forall point | point in hooks :: point == BeforeRollbackRecord)
    && (outcome.RecoveryRequired? ==> BeforeRollbackRecord in hooks)
    && (!outcome.Committed? ==>
          match outcome.cause
          case Injected(point) => point in hooks && point != BeforeRollbackRecord
          case RollbackPathUnsafe => job.Obstructed()
          case BackupNameTaken => job.Obstructed()
          case ParentNotDirectory => job.Blocked()
          case ManifestTemporaryFault => m.full
          case RootBarred => m.barred
          case _ => false)
  }

  /** What a call reports when no fault occurs. */
  ghost predicate Answer(request: Request, before: Tree, report: Report, m: Mishaps) {
    match MakePlan(before, request.archive)
    case Failure(why) => report == Refused(why)
    case Success(plan) =>
      if request.dryRun then report == Planned(plan)
      else if request.backupExists then report == Refused(ConfigBackupExists)
      else
        && report.Mutated() && report == ReportOf(report.outcome, m.barredAfter, false)
        && Unfaulted(request.JobFor(before), request.hooks, report.outcome, m)
  }

  /** A call leaves a staging directory behind exactly if its rollback was stopped; or, on a fault, if the
      clean-up did not get so far. */
  ghost predicate StagesLeft(report: Report, was: seq<Tree>, now: seq<Tree>, stage: bool, undo: Tree, faulted: bool) {
    if report.Stuck() then stage && now == was + [undo]
    else now == was || (faulted && stage && now == was + [undo] && !report.Finished?)
  }

  lemma Replaced(request: Request, before: Tree, report: Report, journal: seq<Record>,
                 live: Tree, undo: Tree, trace: seq<Snapshot>, start: nat)
    requires Effect(request, before, report, journal, live, undo, trace, start)
    ensures Effect(request, before, if report.Mutated() then Escaped(report.outcome) else Refused(StepFailed),
                   journal, live, undo, trace, start)
  {
  }

  lemma SameStages(report: Report, was: seq<Tree>, now: seq<Tree>, stage: bool, undo: Tree, faulted: bool, ever: bool)
    requires StagesLeft(report, was, now, stage, undo, faulted) && (faulted ==> ever)
    ensures StagesLeft(report, was, now, stage, undo, ever)
    ensures StagesLeft(if report.Mutated() then Escaped(report.outcome) else Refused(StepFailed),
                       was, now, stage, undo, ever)
  {
  }

  lemma NoStage(report: Report, was: seq<Tree>, stage: bool, undo: Tree, faulted: bool)
    requires !report.Mutated()
    ensures StagesLeft(report, was, was, stage, undo, faulted)
  {
  }

  lemma NothingHappened(request: Request, disk: Disk, report: Report, journal: seq<Record>)
    requires !report.Mutated()
    ensures Effect(request, disk.live, report, journal, disk.live, disk.undo, disk.trace, |disk.trace|)
  {
  }

  /** rmSync of this call's stage. */
  method Discard(disk: Disk) returns (ok: bool)
    requires disk.Valid() && disk.stage
    modifies disk`undo, disk`extracted, disk`stage, disk`clock, disk`trace
    ensures disk.Valid() && disk.clock >= old(disk.clock)
    ensures disk.trace == old(disk.trace) + [disk.Now()]
    ensures forall p | p in disk.undo.files :: Holds(old(disk.undo.files), p, disk.undo.files[p])
    ensures ok ==> disk.Stages() == disk.abandoned
    ensures !ok ==> disk.stage && disk.Faulted(old(disk.clock))
  {
    ghost var now := disk.clock;
    ok := disk.RemoveStage();
    if !ok { assert disk.fault(now); }
  }

  /** Once the originals are back, they are safe without the rollback tree. */
  lemma RestoredIsSafe(job: Job, journal: seq<Record>, live: Tree, undo: map<Path, File>)
    requires job.Admitted() && job.Accepts(journal) && job.RestoredIn(journal, live)
    ensures job.Safe(Snapshot(live.files, undo))
  {
    hide Job.Admitted, Job.Accepts, Lost, Overwritten;
    forall p | p != job.temporary && (!job.Target(p) || job.Unique(p)) ensures Same(live.files, job.before.files, p) {
      assert Same(live.files, job.before.files - Lost(journal), p);
      if p in Lost(journal) {
        LostIsClobbered(job, journal, p);
        ClobberedIsShared(job, p);
      }
    }
    TemporaryIsFree(job);
  }

  lemma ClobberedIsShared(job: Job, p: Path)
    requires job.Admitted() && job.Clobbered(p)
    ensures job.Target(p) && !job.Unique(p)
  {
    ManifestIsNeither(job);
  }

  lemma TraceGrows(job: Job, outcome: Outcome, trace: seq<Snapshot>, start: nat, s: Snapshot)
    requires SafeThroughout(job, outcome, trace, start)
    requires job.Safe(s) || (outcome.Committed? && Done(job, s.live))
    ensures SafeThroughout(job, outcome, trace + [s], start)
  {
  }

  lemma SafeIsThroughout(job: Job, outcome: Outcome, trace: seq<Snapshot>, start: nat)
    requires SafeSince(job, trace, start)
    ensures SafeThroughout(job, outcome, trace, start)
  {
  }

  /** The run, with what it promises in the terms of a call. */
  method RunJob(disk: Disk, job: Job, partial: Content, hooks: set<Point>)
    returns (outcome: Outcome, ghost journal: seq<Record>)
    requires disk.Valid() && job.Admitted() && disk.live == job.before && disk.stage
    requires disk.undo.files == map[] && disk.undo.dirs.Keys == {[]} && disk.extracted == job.shipped
    modifies disk`live, disk`undo, disk`extracted, disk`clock, disk`trace
    ensures disk.Valid() && disk.clock >= old(disk.clock)
    ensures Left(job, outcome, journal, disk.live) && job.Safe(disk.Now())
    ensures SafeThroughout(job, outcome, disk.trace, |old(disk.trace)|)
    ensures outcome.RecoveryRequired? ==> disk.Faulted(old(disk.clock)) || BeforeRollbackRecord in hooks
    ensures !disk.Faulted(old(disk.clock)) ==>
      exists m :: Met(disk, m, old(disk.clock), disk.clock) && Unfaulted(job, hooks, outcome, m)
    ensures outcome.RolledBack? ==> BeforeRollbackRecord !in hooks || journal == []
  {
    hide Settled, AllApplied, SafeSince, UndoKept, Absent, AllDirectories, CreatedAbove, Protected,
      Job.InstalledIn, Job.RestoredIn, Job.Admitted, Job.Safe, Job.Complete, Job.Obstructed, Job.Blocked,
      SafeThroughout;
    var run := new InstallRun(disk, job, hooks);
    outcome := run.Run(partial);
    journal := run.journal;
    SafeIsThroughout(job, outcome, disk.trace, run.start);
    if !disk.Faulted(old(disk.clock)) { UnfaultedRun(run, outcome); }
  }

  /** Without a fault, whether there was room at the moment of the write decides. */
  lemma UnfaultedRun(run: InstallRun, outcome: Outcome)
    requires run.begun <= run.disk.clock && !run.Broken()
    requires outcome.Committed? ==> !run.job.Obstructed() && !run.job.Blocked() && run.Roomy() && run.Steady()
    requires outcome.Committed? ==> forall point | point in run.hooks :: point == BeforeRollbackRecord
    requires !outcome.Committed? ==> run.Excused(outcome.cause)
    requires outcome.RecoveryRequired? ==> BeforeRollbackRecord in run.hooks
    ensures exists m :: Met(run.disk, m, run.begun, run.disk.clock) && Unfaulted(run.job, run.hooks, outcome, m)
  {
    hide Job.Obstructed, Job.Blocked, Job.Complete;
    var disk := run.disk;
    var w, r := run.begun, run.begun;
    if outcome.Committed? {
      w :| run.begun <= w < disk.clock && !disk.full(w);
      r :| run.begun <= r < disk.clock && !disk.barred(r);
    } else if outcome.cause.ManifestTemporaryFault? {
      w :| run.begun <= w < disk.clock && (disk.fault(w) || disk.full(w));
      assert !disk.fault(w);
    } else if outcome.cause.RootBarred? {
      r :| run.begun <= r < disk.clock && disk.barred(r);
    }
    var m := Mishaps(disk.full(w), disk.barred(r), disk.barred(r));
    assert Met(disk, m, run.begun, disk.clock);
    assert Unfaulted(run.job, run.hooks, outcome, m);
  }

  lemma SameOutcome(job: Job, hooks: set<Point>, outcome: Outcome, m: Mishaps, barred: bool)
    requires Unfaulted(job, hooks, outcome, m)
    ensures Unfaulted(job, hooks, outcome, m.(barredAfter := barred))
  {
  }

  /** The mutation and the finally block after it: the stage is removed after a commit or a completed
      rollback, and kept in every other case. */
  method Mutate(disk: Disk, job: Job, partial: Content, hooks: set<Point>)
    returns (report: Report, ghost journal: seq<Record>)
    requires disk.Valid() && job.Admitted() && disk.live == job.before && disk.stage
    requires disk.undo.files == map[] && disk.undo.dirs.Keys == {[]} && disk.extracted == job.shipped
    modifies disk`live, disk`undo, disk`extracted, disk`stage, disk`clock, disk`trace
    ensures disk.Valid() && disk.clock > old(disk.clock) && report.Mutated()
    ensures Left(job, report.outcome, journal, disk.live)
    ensures SafeThroughout(job, report.outcome, disk.trace, |old(disk.trace)|)
    ensures report.Stuck() ==> job.Safe(disk.Now())
    ensures report.Stuck() ==> disk.Faulted(old(disk.clock)) || BeforeRollbackRecord in hooks
    ensures report.Stuck() ==> report == ReportOf(report.outcome, disk.RootFails(disk.clock - 1), false)
    ensures StagesLeft(report, disk.abandoned, disk.Stages(), disk.stage, disk.undo, disk.Troubled(old(disk.clock)))
    ensures report.Escaped? ==> disk.Troubled(old(disk.clock))
    ensures !disk.Faulted(old(disk.clock)) ==>
      exists m :: Met(disk, m, old(disk.clock), disk.clock) && Unfaulted(job, hooks, report.outcome, m)
                  && report == ReportOf(report.outcome, m.barredAfter, false)
    ensures report.outcome.RolledBack? ==> BeforeRollbackRecord !in hooks || journal == []
  {
    hide Left, SafeThroughout, Unfaulted, Job.Safe, Job.Admitted, StagesLeft, Met;
    var outcome;
    outcome, journal := RunJob(disk, job, partial, hooks);
    ghost var now, trace := disk.clock, disk.trace;
    report := Finally(disk, outcome);
    if !outcome.RecoveryRequired? && disk.trace != trace {
      LeftIsSettled(job, outcome, journal, disk.live, disk.undo.files);
      TraceGrows(job, outcome, trace, |old(disk.trace)|, disk.Now());
    }
    TroubledSince(disk, now, old(disk.clock), report);
    if !disk.Faulted(old(disk.clock)) {
      var m :| Met(disk, m, old(disk.clock), now) && Unfaulted(job, hooks, outcome, m);
      LaterMishap(disk, m, old(disk.clock), now, now, disk.clock);
      SameOutcome(job, hooks, outcome, m, disk.barred(now));
    }
  }

  lemma TroubledSince(disk: Disk, now: nat, from: nat, report: Report)
    requires from <= now && StagesLeft(report, disk.abandoned, disk.Stages(), disk.stage, disk.undo, disk.Troubled(now))
    ensures StagesLeft(report, disk.abandoned, disk.Stages(), disk.stage, disk.undo, disk.Troubled(from))
    ensures disk.Troubled(now) ==> disk.Troubled(from)
  {
  }

  /** The finally block. */
  method Finally(disk: Disk, outcome: Outcome) returns (report: Report)
    requires disk.Valid() && disk.stage
    modifies disk`undo, disk`extracted, disk`stage, disk`clock, disk`trace
    ensures disk.Valid() && disk.clock > old(disk.clock) && report.Mutated() && report.outcome == outcome
    ensures disk.trace == old(disk.trace) || disk.trace == old(disk.trace) + [disk.Now()]
    ensures outcome.RecoveryRequired? ==>
      && disk.undo == old(disk.undo) && disk.trace == old(disk.trace) && disk.clock == old(disk.clock) + 1
      && report == ReportOf(outcome, disk.RootFails(old(disk.clock)), false)
    ensures StagesLeft(report, disk.abandoned, disk.Stages(), disk.stage, disk.undo, disk.Troubled(old(disk.clock)))
    ensures report.Escaped? ==> disk.Troubled(old(disk.clock))
    ensures !disk.Faulted(old(disk.clock)) ==> report == ReportOf(outcome, disk.barred(old(disk.clock)), false)
  {
    ghost var now := disk.clock;
    var enforced := disk.EnforceRoot();
    if !enforced {
      assert disk.fault(now) || disk.barred(now);
      return ReportOf(outcome, true, false);
    }
    if outcome.RecoveryRequired? { return ReportOf(outcome, false, false); }
    var discarded := Discard(disk);
    report := ReportOf(outcome, false, !discarded);
  }

  lemma LeftIsSettled(job: Job, outcome: Outcome, journal: seq<Record>, live: Tree, undo: map<Path, File>)
    requires Left(job, outcome, journal, live) && !outcome.RecoveryRequired?
    ensures job.Safe(Snapshot(live.files, undo)) || (outcome.Committed? && Done(job, live.files))
  {
    hide Job.Admitted, Job.Accepts, Job.Safe, Job.RestoredIn;
    if outcome.RolledBack? { RestoredIsSafe(job, journal, live, undo); }
  }

  /** installReleaseUnlocked */
  method InstallUnlocked(disk: Disk, request: Request) returns (report: Report, ghost journal: seq<Record>)
    requires disk.Valid() && request.Valid(disk.live)
    modifies disk`live, disk`undo, disk`extracted, disk`stage, disk`abandoned, disk`clock, disk`trace
    ensures disk.Valid() && disk.clock >= old(disk.clock)
    ensures Effect(request, old(disk.live), report, journal, disk.live, disk.undo, disk.trace, |old(disk.trace)|)
    ensures !disk.Faulted(old(disk.clock)) ==>
      exists m :: Met(disk, m, old(disk.clock), disk.clock) && Answer(request, old(disk.live), report, m)
    ensures report.Mutated() && report.outcome.RolledBack? ==> BeforeRollbackRecord !in request.hooks || journal == []
    ensures report.Stuck() ==> disk.Faulted(old(disk.clock)) || BeforeRollbackRecord in request.hooks
    ensures report.Stuck() ==> disk.clock > old(disk.clock) && (report.Escaped? <==> disk.RootFails(disk.clock - 1))
    ensures StagesLeft(report, old(disk.Stages()), disk.Stages(), disk.stage, disk.undo, disk.Troubled(old(disk.clock)))
  {
    hide Left, SafeThroughout, Unfaulted, MakePlan, Job.Safe, Job.Admitted, Identities, ReadPreviousManifest,
      Archive.Listed, FreshName, WellFormed, Met;
    journal := [];
    if Identities(disk.live).None? || ReadPreviousManifest(disk.live).Failure? {
      RefusedEarly(disk.live, request.archive);
      report := Refused(if Identities(disk.live).None? then PersistentPathInvalid
                        else ReadPreviousManifest(disk.live).error);
      AnyMishap(disk, disk.clock, disk.clock);
      return;
    }
    report, journal := InstallStaged(disk, request);
  }

  /** The stage is made and the archive unpacked there; a call that is not to change anything ends here. */
  method InstallStaged(disk: Disk, request: Request) returns (report: Report, ghost journal: seq<Record>)
    requires disk.Valid() && request.Valid(disk.live)
    modifies disk`live, disk`undo, disk`extracted, disk`stage, disk`abandoned, disk`clock, disk`trace
    ensures disk.Valid() && disk.clock > old(disk.clock)
    ensures Effect(request, old(disk.live), report, journal, disk.live, disk.undo, disk.trace, |old(disk.trace)|)
    ensures !disk.Faulted(old(disk.clock)) ==>
      exists m :: Met(disk, m, old(disk.clock), disk.clock) && Answer(request, old(disk.live), report, m)
    ensures report.Mutated() && report.outcome.RolledBack? ==> BeforeRollbackRecord !in request.hooks || journal == []
    ensures report.Stuck() ==> disk.Faulted(old(disk.clock)) || BeforeRollbackRecord in request.hooks
    ensures report.Stuck() ==> (report.Escaped? <==> disk.RootFails(disk.clock - 1))
    ensures StagesLeft(report, old(disk.Stages()), disk.Stages(), disk.stage, disk.undo, disk.Troubled(old(disk.clock)))
  {
    hide Left, SafeThroughout, Unfaulted, MakePlan, Job.Safe, Job.Admitted, Identities, ReadPreviousManifest,
      Archive.Listed, FreshName, WellFormed, Met;
    journal := [];
    ghost var now := disk.clock;
    AnyMishap(disk, now, now);
    var staged := disk.MakeStage();
    if !staged {
      assert disk.fault(now);
      return Refused(StepFailed), journal;
    }
    now := disk.clock;
    var unpacked := disk.Unpack(request.archive.tree.files);
    assert !unpacked ==> disk.fault(now);
    var plan := MakePlan(disk.live, request.archive);
    if !unpacked || plan.Failure? || request.dryRun || request.backupExists {
      var discarded := Discard(disk);
      report := if !unpacked || !discarded then Refused(StepFailed)
                else if plan.Failure? then Refused(plan.error)
                else if request.dryRun then Planned(plan.value) else Refused(ConfigBackupExists);
      AnyMishap(disk, old(disk.clock), disk.clock);
      return;
    }
    ghost var live := disk.live;
    now := disk.clock;
    report, journal := BackUpAndMutate(disk, request);
    hide StagesLeft, Effect;
    TroubledSince(disk, now, old(disk.clock), report);
    if !disk.Faulted(old(disk.clock)) { MutatedAnswer(disk, request, live, report, now, old(disk.clock)); }
  }

  lemma MutatedAnswer(disk: Disk, request: Request, before: Tree, report: Report, now: nat, from: nat)
    requires from <= now <= disk.clock && MakePlan(before, request.archive).Success? && !request.dryRun
    requires !request.backupExists && report.Mutated()
    requires exists m :: Met(disk, m, now, disk.clock) && report == ReportOf(report.outcome, m.barredAfter, false)
                         && Unfaulted(request.JobFor(before), request.hooks, report.outcome, m)
    ensures exists m :: Met(disk, m, from, disk.clock) && Answer(request, before, report, m)
  {
    hide Met, Unfaulted, MakePlan;
    var m :| Met(disk, m, now, disk.clock) && report == ReportOf(report.outcome, m.barredAfter, false)
      && Unfaulted(request.JobFor(before), request.hooks, report.outcome, m);
    SameMishap(disk, now, disk.clock, from, disk.clock, m);
    assert Answer(request, before, report, m);
  }

  lemma RefusedEarly(live: Tree, archive: Archive)
    requires Identities(live).None? || ReadPreviousManifest(live).Failure?
    ensures MakePlan(live, archive)
         == Failure(if Identities(live).None? then PersistentPathInvalid else ReadPreviousManifest(live).error)
  {
  }

  /** The configuration backup, one call here, and the mutation after it. */
  method BackUpAndMutate(disk: Disk, request: Request) returns (report: Report, ghost journal: seq<Record>)
    requires disk.Valid() && disk.stage && request.Valid(disk.live) && MakePlan(disk.live, request.archive).Success?
    requires !request.dryRun && disk.undo.files == map[] && disk.undo.dirs.Keys == {[]}
    requires disk.extracted == request.archive.tree.files
    modifies disk`live, disk`undo, disk`extracted, disk`stage, disk`clock, disk`trace
    ensures disk.Valid() && disk.clock > old(disk.clock)
    ensures Effect(request, old(disk.live), report, journal, disk.live, disk.undo, disk.trace, |old(disk.trace)|)
    ensures report.Mutated() || (report == Refused(StepFailed) && disk.Faulted(old(disk.clock)))
    ensures !disk.Faulted(old(disk.clock)) ==>
      && report.Mutated()
      && exists m ::
           && Met(disk, m, old(disk.clock), disk.clock) && report == ReportOf(report.outcome, m.barredAfter, false)
           && Unfaulted(request.JobFor(old(disk.live)), request.hooks, report.outcome, m)
    ensures report.Mutated() && report.outcome.RolledBack? ==> BeforeRollbackRecord !in request.hooks || journal == []
    ensures report.Stuck() ==> disk.Faulted(old(disk.clock)) || BeforeRollbackRecord in request.hooks
    ensures report.Stuck() ==> (report.Escaped? <==> disk.RootFails(disk.clock - 1))
    ensures StagesLeft(report, disk.abandoned, disk.Stages(), disk.stage, disk.undo, disk.Troubled(old(disk.clock)))
  {
    hide Left, SafeThroughout, Unfaulted, MakePlan, Job.Safe, Job.Admitted, Archive.Listed, FreshName, WellFormed;
    journal := [];
    ghost var now := disk.clock;
    var ok := disk.Tick();
    if !ok {
      assert disk.fault(now);
      var discarded := Discard(disk);
      return Refused(StepFailed), journal;
    }
    PlanAdmits(disk.live, request.archive, request.temporary, request.revision, request.DigestAt);
    report, journal := Mutate(disk, request.JobFor(disk.live), request.partial, request.hooks);
  }

  lemma LongerCall(disk: Disk, from: nat, earlier: nat, later: nat, request: Request, before: Tree, report: Report)
    requires earlier <= from <= disk.clock <= later
    requires exists m :: Met(disk, m, from, disk.clock) && Answer(request, before, report, m)
    ensures exists m :: (forall until | later <= until :: Met(disk, m, earlier, until))
                        && Answer(request, before, report, m)
  {
    hide Met, Answer;
    var m :| Met(disk, m, from, disk.clock) && Answer(request, before, report, m);
    forall until | later <= until ensures Met(disk, m, earlier, until) {
      SameMishap(disk, from, disk.clock, earlier, until, m);
    }
  }

  /** What installRelease does once it holds the lock. */
  method InstallLocked(disk: Disk, request: Request) returns (report: Report, ghost journal: seq<Record>)
    requires disk.Valid() && request.Valid(disk.live) && disk.lock
    modifies disk
    ensures disk.Valid() && disk.clock >= old(disk.clock)
    ensures Effect(request, old(disk.live), report, journal, disk.live, disk.undo, disk.trace, |old(disk.trace)|)
    ensures !disk.Faulted(old(disk.clock)) ==>
      && (exists m :: Met(disk, m, old(disk.clock), disk.clock) && Answer(request, old(disk.live), report, m))
      && (disk.lock <==> report.Stuck() && report.Finished?)
    ensures report.Mutated() && report.outcome.RolledBack? ==> BeforeRollbackRecord !in request.hooks || journal == []
    ensures report.Stuck() ==> disk.Faulted(old(disk.clock)) || BeforeRollbackRecord in request.hooks
    ensures report.Stuck() ==> disk.clock > old(disk.clock)
    ensures report.Stuck() && report.Finished? ==> disk.lock && !disk.RootFails(disk.clock - 1)
    ensures report.Stuck() && report.Escaped? ==>
      disk.clock > old(disk.clock) + 1 && disk.RootFails(disk.clock - 2) && (disk.lock <==> disk.fault(disk.clock - 1))
    ensures !report.Stuck() ==> disk.clock > old(disk.clock) && (disk.lock <==> disk.fault(disk.clock - 1))
    ensures StagesLeft(report, old(disk.Stages()), disk.Stages(), disk.stage, disk.undo, disk.Troubled(old(disk.clock)))
  {
    hide Effect, Answer, StagesLeft, WellFormed, Request.Valid, Met;
    report, journal := InstallUnlocked(disk, request);
    if !disk.Faulted(old(disk.clock)) {
      LongerCall(disk, old(disk.clock), old(disk.clock), disk.clock, request, old(disk.live), report);
    }
    ghost var faulted := disk.Troubled(old(disk.clock));
    if report.Finished? && report.outcome.RecoveryRequired? { return; }
    ghost var now := disk.clock;
    var released := disk.ReleaseLock();
    SameStages(report, old(disk.Stages()), disk.Stages(), disk.stage, disk.undo, faulted,
               disk.Troubled(old(disk.clock)));
    if !released {
      assert disk.fault(now);
      Replaced(request, old(disk.live), report, journal, disk.live, disk.undo, disk.trace, |old(disk.trace)|);
      report := if report.Mutated() then Escaped(report.outcome) else Refused(StepFailed);
    }
  }

  /** installRelease: the same under the deploy lock. A held lock is never touched. After a rollback that was
      stopped, the lock stays if the failure is reported as such, that is, if the clean-up after it succeeds;
      otherwise it stays only if its removal fails too. In every other case a failed removal alone keeps it. */
  method InstallRelease(disk: Disk, request: Request) returns (report: Report, ghost journal: seq<Record>)
    requires disk.Valid() && request.Valid(disk.live)
    modifies disk
    ensures disk.Valid() && disk.clock > old(disk.clock)
    ensures Effect(request, old(disk.live), report, journal, disk.live, disk.undo, disk.trace, |old(disk.trace)|)
    ensures !old(disk.lock) && !disk.Faulted(old(disk.clock)) ==>
      && (exists m :: Met(disk, m, old(disk.clock), disk.clock) && Answer(request, old(disk.live), report, m))
      && (disk.lock <==> report.Stuck() && report.Finished?)
    ensures report.Mutated() && report.outcome.RolledBack? ==> BeforeRollbackRecord !in request.hooks || journal == []
    ensures old(disk.lock) ==> disk.lock && report.Refused? && disk.Stages() == old(disk.Stages())
    ensures report.Stuck() ==> disk.Faulted(old(disk.clock)) || BeforeRollbackRecord in request.hooks
    ensures report.Stuck() && report.Finished? ==> disk.lock && !disk.RootFails(disk.clock - 1)
    ensures report.Stuck() && report.Escaped? ==>
      disk.clock > old(disk.clock) + 2 && disk.RootFails(disk.clock - 2) && (disk.lock <==> disk.fault(disk.clock - 1))
    ensures !old(disk.lock) && !report.Stuck() && disk.clock > old(disk.clock) + 1 ==>
      (disk.lock <==> disk.fault(disk.clock - 1))
    ensures StagesLeft(report, old(disk.Stages()), disk.Stages(), disk.stage, disk.undo, disk.Troubled(old(disk.clock)))
  {
    hide Effect, Answer, StagesLeft, WellFormed, Request.Valid, Met;
    journal := [];
    ghost var now := disk.clock;
    var taken := disk.TakeLock();
    if !taken {
      assert disk.fault(now) || old(disk.lock);
      report := Refused(if disk.lock then LockHeld else StepFailed);
      NothingHappened(request, disk, report, journal);
      NoStage(report, disk.Stages(), disk.stage, disk.undo, disk.Troubled(old(disk.clock)));
      return;
    }
    ghost var from := disk.clock;
    report, journal := InstallLocked(disk, request);
    if !disk.Faulted(old(disk.clock)) {
      LongerCall(disk, from, old(disk.clock), disk.clock, request, old(disk.live), report);
    }
    SameStages(report, old(disk.Stages()), disk.Stages(), disk.stage, disk.undo, disk.Troubled(from),
               disk.Troubled(old(disk.clock)));
  }
}
