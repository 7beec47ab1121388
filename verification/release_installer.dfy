/** The transactional release installer: publish file by file with an undo journal, remove stale
    files, replace the manifest last, and replay the journal backwards on any failure. */
module ReleaseInstaller {
  import opened Wrappers
  import opened Paths
  import opened FileSystem
  import opened ReleaseSpec
  import opened RollbackNames
  import opened RollbackSteps
  import opened InstallSteps
  import opened TreeBack
  import EmptyParents

  /** The places where the installer calls the hook that its tests use to stop it. */
  datatype Point =
    | AfterSourcePublish | AfterStaleMove | AfterManifestPublish | AfterPersistentVerify | BeforeRollbackRecord

  /** Why a step stopped: a fault of the schedule; such a fault, or a full disk, while the temporary manifest is
      there; a release root whose mode cannot be set; a hook; a file or a directory in the way of a backup; a
      file in the place of a directory to be removed. */
  datatype Cause =
    | SystemFault | ManifestTemporaryFault | RootBarred | Injected(point: Point)
    | RollbackPathUnsafe | BackupNameTaken | ParentNotDirectory | PersistentIdentityChanged
  {
    /** The step was one of those after the manifest's. */
    predicate Late() {
      (Injected? && point in {AfterManifestPublish, AfterPersistentVerify})
      || ParentNotDirectory? || PersistentIdentityChanged? || RootBarred?
    }
  }

  datatype Outcome = Committed | RolledBack(cause: Cause) | RecoveryRequired(cause: Cause)

  /** A shipped or manifest record is never that of a directory. */
  lemma NothingStowed(job: Job, journal: seq<Record>, dirs: map<Path, nat>)
    requires job.Admitted() && job.Accepts(journal)
    requires forall i | 0 <= i < |journal| :: journal[i].target in job.shipped
    ensures Absent(job, journal, |journal|, dirs)
  {
    hide Job.Admitted, Job.Accepts, Job.Stows;
    forall i | 0 <= i < |journal| ensures !job.Stows(journal[i]) {
      if job.Stows(journal[i]) { LaterIsNotShipped(job, journal, i, i); }
    }
  }

  lemma AbsentShrinks(job: Job, journal: seq<Record>, k: nat, dirs: map<Path, nat>, now: map<Path, nat>)
    requires k <= |journal| && Absent(job, journal, k, dirs) && forall d | d in now :: d in dirs
    ensures Absent(job, journal, k, now)
  {
  }

  /** One more record: if it is that of a directory, this directory has gone. */
  lemma AbsentMore(job: Job, journal: seq<Record>, r: Record, dirs: map<Path, nat>)
    requires Absent(job, journal, |journal|, dirs) && (job.Stows(r) ==> r.target !in dirs)
    ensures Absent(job, journal + [r], |journal| + 1, dirs)
  {
    JournalGrows(journal, r);
  }

  lemma AbsentPublished(job: Job, journal: seq<Record>, dirs: map<Path, nat>)
    requires journal != [] && Absent(job, journal, |journal|, dirs)
    ensures Absent(job, Published(journal), |journal|, dirs)
  {
    PublishedAlike(journal);
  }

  lemma CreatedMore(job: Job, journal: seq<Record>, created: seq<Path>, undo: Tree, d: Path)
    requires UndoKept(job, journal, created, undo)
    ensures UndoKept(job, journal, created + [d], undo)
  {
    hide NamesKnown, NamesPlaced;
    forall i | 0 <= i < |journal| && job.Stows(journal[i])
      ensures StowedAt(job, journal[i].target, created + [d], undo)
    {
      assert StowedAt(job, journal[i].target, created, undo);
    }
  }

  lemma AboveJoins(job: Job, created: seq<Path>, d: Path)
    requires CreatedAbove(job, created) && Ancestor(job.current, d)
    ensures CreatedAbove(job, created + [d])
  {
  }

  lemma NothingKept(job: Job, undo: Tree)
    requires undo.files == map[] && undo.dirs.Keys == {[]}
    ensures UndoKept(job, [], [], undo)
  {
  }

  /** Whether moveForRollback finds something. */
  lemma ReadyFinds(job: Job, journal: seq<Record>, created: seq<Path>, live: Tree, undo: map<Path, File>, target: Path)
    requires Settled(job, journal, created, live) && AllApplied(job, journal, live.files, undo)
    requires Ready(job, journal, live, target) && WellFormed(live)
    ensures target != [] && job.Backup(target) != []
    ensures target in live.dirs <==> job.Swept(target)
    ensures target in live.files <==> target in job.before.files
    ensures MoveRecord(job, target).backup == if Exists(live, target) then Some(job.Backup(target)) else None
    ensures job.Stows(MoveRecord(job, target)) <==> job.Swept(target)
  {
    hide Job.Accepts, DirectoriesKept, AllApplied, Job.AboveShipped, Job.UnderStale;
    ReadyIsHandled(job, journal, live, target);
    HandledIsTarget(job, target);
    UntouchedTarget(job, journal, live, created, target);
    BackupNotRoot(job, target);
  }

  /** All files are those of a successful installation. */
  ghost predicate FilesInPlace(job: Job, live: Tree) {
    && (forall p | p != MANIFEST :: Same(live.files, job.Installed(), p))
    && MANIFEST in live.files && live.files[MANIFEST].content == job.manifest
    && (forall p | p in job.stale :: !Exists(live, p))
    && (forall p | p in job.shipped :: p in live.files <==> !job.UnderStale(p))
  }

  /** A target moved aside is gone, with what was below it and nothing else. */
  lemma TargetHasGone(was: Tree, now: Tree, target: Path)
    requires now == if target in was.dirs then PrunedAt(was, target) else Tree(was.files - {target}, was.dirs)
    ensures !Exists(now, target)
    ensures (forall p | p in now.files :: p in was.files) && (forall d | d in now.dirs :: d in was.dirs)
    ensures forall p | p in was.files :: p in now.files || target <= p
    ensures forall d | d in was.dirs :: d in now.dirs || target <= d
  {
  }

  class InstallRun {
    const disk: Disk
    const job: Job
    const hooks: set<Point>
    /** Length of the disk's trace when the first mutation is about to happen. */
    ghost const start: nat
    /** The disk's clock at that time. */
    ghost const begun: nat
    var journal: seq<Record>
    var created: seq<Path>

    constructor (disk: Disk, job: Job, hooks: set<Point>)
      requires disk.Valid() && disk.stage && job.Admitted() && disk.live == job.before
      requires disk.undo.files == map[] && disk.undo.dirs.Keys == {[]}
      ensures this.disk == disk && this.job == job && this.hooks == hooks && start == |disk.trace|
      ensures begun == disk.clock
      ensures journal == [] && created == [] && Forward() && NoDirectoryGone() && TemporaryUnused()
      ensures CreatedAbove(job, created)
    {
      this.disk, this.job, this.hooks := disk, job, hooks;
      journal, created := [], [];
      start, begun := |disk.trace|, disk.clock;
      new;
      NothingKept(job, disk.undo);
    }

    // ---- What the run keeps true ----

    ghost predicate TemporaryUnused() reads this, disk {
      job.temporary !in disk.live.files
    }

    /** Holds at every point of the run, rollback included. */
    ghost predicate Base() reads this, disk {
      && disk.Valid() && disk.stage && begun <= disk.clock
      && Settled(job, journal, created, disk.live)
      && SafeSince(job, disk.trace, start)
    }

    /** At some moment of this run there was room for a write. */
    ghost predicate Roomy() reads this, disk {
      exists n :: begun <= n < disk.clock && !disk.full(n)
    }

    /** At some moment of this run the mode of the root could be set. */
    ghost predicate Steady() reads this, disk {
      exists n :: begun <= n < disk.clock && !disk.barred(n)
    }

    /** The fault schedule has hit a call of this run. */
    ghost predicate Broken() reads this, disk {
      disk.Faulted(begun)
    }

    /** Nothing has been undone yet. */
    ghost predicate Forward() reads this, disk {
      && Base() && AllApplied(job, journal, disk.live.files, disk.undo.files)
      && UndoKept(job, journal, created, disk.undo) && Absent(job, journal, |journal|, disk.live.dirs)
    }

    /** No directory has been removed yet. */
    ghost predicate NoDirectoryGone() reads this, disk {
      AllDirectories(job, disk.live.dirs, created)
    }

    /** What the cause of a failure says: of the fault schedule and the hooks, of the job, of the temporary
        manifest and of the journal. */
    ghost predicate Excused(cause: Cause) reads this, disk {
      && (job.temporary in disk.live.files <==> cause.ManifestTemporaryFault?)
      && (cause.Late() ==> job.Complete(journal))
      && match cause
         case SystemFault => Broken()
         case ManifestTemporaryFault => disk.Hit(begun)
         case RootBarred => exists n :: begun <= n < disk.clock && disk.barred(n)
         case Injected(point) => point in hooks && point != BeforeRollbackRecord
         case RollbackPathUnsafe => job.Obstructed()
         case BackupNameTaken => job.Obstructed()
         case ParentNotDirectory => Broken() || job.Blocked()
         case PersistentIdentityChanged => false
    }

    lemma Fault(now: nat)
      requires TemporaryUnused() && begun <= now < disk.clock && disk.fault(now)
      ensures Excused(SystemFault)
    {
      assert disk.fault(now);
    }

    lemma Obstruction(cause: Cause)
      requires TemporaryUnused() && job.Obstructed() && (cause == RollbackPathUnsafe || cause == BackupNameTaken)
      ensures Excused(cause)
    {
    }

    lemma Accepted()
      requires Base()
      ensures job.Admitted() && job.Accepts(journal)
    {
    }

    /** The hook; the fault schedule may stop it too. */
    method Inject(point: Point) returns (cause: Option<Cause>)
      modifies disk`clock
      ensures disk.clock == old(disk.clock) + 1
      ensures cause == if disk.fault(old(disk.clock)) then Some(SystemFault)
                       else if point in hooks then Some(Injected(point)) else None
      ensures cause == Some(SystemFault) && begun <= old(disk.clock) ==> Broken()
    {
      ghost var now := disk.clock;
      var ok := disk.Tick();
      assert !ok ==> disk.fault(now);
      cause := if !ok then Some(SystemFault) else if point in hooks then Some(Injected(point)) else None;
    }

    // ---- Publishing ----

    ghost predicate OnlyShipped() reads this {
      forall i | 0 <= i < |journal| :: journal[i].target in job.shipped
    }

    method EnsureReleaseParents(entry: Path) returns (ok: bool)
      requires Forward() && NoDirectoryGone() && TemporaryUnused() && OnlyShipped() && CreatedAbove(job, created)
      requires entry in job.shipped
      modifies this`created, disk`live, disk`clock
      ensures Forward() && NoDirectoryGone() && CreatedAbove(job, created) && disk.clock >= old(disk.clock)
      ensures disk.live.files == old(disk.live.files)
      ensures ok ==> Parent(entry) in disk.live.dirs
      ensures !ok ==> Broken()
    {
      hide Settled, AllApplied, SafeSince, UndoKept, Absent, AllDirectories, Job.Admitted, Job.Accepts, CreatedAbove,
        Protected,
        Ancestor;
      ListsShipped(job, journal, created, disk.live);
      var k := 1;
      while k < |entry|
        invariant 1 <= k <= |entry|
        invariant Forward() && NoDirectoryGone() && CreatedAbove(job, created) && disk.clock >= old(disk.clock)
        invariant disk.live.files == old(disk.live.files)
        invariant entry[..k - 1] in disk.live.dirs
      {
        var d := entry[..k];
        assert Parent(d) == entry[..k - 1];
        Accepted();
        NoFileAbove(job, journal, created, disk.live, entry, k);
        if !Exists(disk.live, d) {
          DirectoryCreated(job, journal, disk.live, created, d, disk.inode(disk.clock));
          AboveIsAncestor(job, journal, created, disk.live, entry, k);
          AboveJoins(job, created, d);
          CreatedMore(job, journal, created, disk.undo, d);
          ghost var now := disk.clock;
          ok := disk.MakeLiveDirectory(d);
          if !ok {
            assert disk.fault(now);
            return;
          }
          NothingStowed(job, journal, disk.live.dirs);
          created := created + [d];
        }
        k := k + 1;
      }
      ok := true;
    }

    /** One directory above a backup; a file in its place is refused. */
    method EnsurePrivateParent(target: Path, backup: Path, k: nat) returns (cause: Option<Cause>)
      requires Forward() && TemporaryUnused() && Ready(job, journal, disk.live, target)
      requires backup == job.Backup(target) && 0 < k < |backup| && backup[..k - 1] in disk.undo.dirs
      modifies disk`undo, disk`clock
      ensures Forward() && disk.clock >= old(disk.clock)
      ensures disk.undo.files == old(disk.undo.files) && forall d | d in old(disk.undo.dirs) :: d in disk.undo.dirs
      ensures cause.None? ==> backup[..k] in disk.undo.dirs
      ensures cause.Some? ==> Excused(cause.value) && !cause.value.ManifestTemporaryFault?
    {
      hide Settled, Excused, AllApplied, SafeSince, UndoKept, Absent, Ready, Job.Backup;
      Accepted();
      hide Job.Admitted, Job.Accepts, Job.Obstructed, WellFormed;
      var d := backup[..k];
      assert Parent(d) == backup[..k - 1];
      if !Exists(disk.undo, d) {
        PrivateParentCreated(job, journal, created, disk.live, disk.undo, target, k, disk.inode(disk.clock));
        ghost var now := disk.clock;
        var ok := disk.MakeUndoDirectory(d);
        if !ok {
          Fault(now);
          return Some(SystemFault);
        }
      } else if d in disk.undo.files {
        FileInTheWay(job, journal, created, disk.live, disk.undo, target, k);
        Obstruction(RollbackPathUnsafe);
        return Some(RollbackPathUnsafe);
      }
      cause := None;
    }

    /** mkdir of the directories above a backup. */
    method EnsurePrivateParents(target: Path, backup: Path) returns (cause: Option<Cause>)
      requires Forward() && TemporaryUnused() && Ready(job, journal, disk.live, target)
      requires backup == job.Backup(target) && backup != []
      modifies disk`undo, disk`clock
      ensures Forward() && disk.clock >= old(disk.clock)
      ensures disk.undo.files == old(disk.undo.files)
      ensures cause.None? ==> PrefixesThere(backup, disk.undo.dirs)
      ensures cause.Some? ==> Excused(cause.value) && !cause.value.ManifestTemporaryFault?
    {
      hide Settled, Excused, AllApplied, SafeSince, UndoKept, Absent, Ready, Job.Backup;
      var k := 1;
      while k < |backup|
        invariant 1 <= k <= |backup|
        invariant Forward() && disk.clock >= old(disk.clock)
        invariant disk.undo.files == old(disk.undo.files)
        invariant forall j | 0 <= j < k :: backup[..j] in disk.undo.dirs
      {
        cause := EnsurePrivateParent(target, backup, k);
        if cause.Some? { return; }
        k := k + 1;
      }
      cause := None;
    }

    /** rename of a file into the rollback tree. */
    method MoveFileAside(target: Path, backup: Path) returns (cause: Option<Cause>)
      requires Forward() && TemporaryUnused() && Ready(job, journal, disk.live, target) && target in disk.live.files
      requires target !in disk.live.dirs && backup == job.Backup(target) && PrefixesThere(backup, disk.undo.dirs)
      modifies this`journal, disk`live, disk`undo, disk`clock, disk`trace
      ensures Forward() && disk.clock >= old(disk.clock)
      ensures cause.None? ==> journal == old(journal) + [MoveRecord(job, target)]
      ensures cause.None? ==> disk.live == Tree(old(disk.live.files) - {target}, old(disk.live.dirs))
      ensures cause.Some? ==> Excused(cause.value) && !cause.value.ManifestTemporaryFault?
    {
      hide Settled, Excused, AllApplied, SafeSince, UndoKept, Absent, Ready, Job.Backup, Job.Swept, Job.Obstructed,
        Job.Blocked,
        Job.Admitted, Job.Accepts, Job.Safe, Job.Complete, Job.Stows, WellFormed;
      ghost var now, trace := disk.clock, disk.trace;
      ReadyFinds(job, journal, created, disk.live, disk.undo.files, target);
      Accepted();
      MoveKeeps(job, journal, created, disk.live, disk.undo, target);
      AbsentMore(job, journal, MoveRecord(job, target), disk.live.dirs);
      assert backup[..|backup| - 1] in disk.undo.dirs;
      var ok := disk.MoveToUndo(target, backup);
      if !ok {
        if backup in disk.undo.dirs {
          DirectoryInTheWay(job, journal, created, disk.live, disk.undo, target);
          Obstruction(BackupNameTaken);
          return Some(BackupNameTaken);
        }
        Fault(now);
        return Some(SystemFault);
      }
      SafeExtended(job, trace, start, disk.Now());
      journal := journal + [Record(target, Some(backup), false)];
      cause := None;
    }

    /** rename of a directory, which a stale name has become, into the rollback tree. */
    method MoveTreeAside(target: Path, backup: Path) returns (cause: Option<Cause>)
      requires Forward() && TemporaryUnused() && Ready(job, journal, disk.live, target) && target in disk.live.dirs
      requires backup == job.Backup(target) && PrefixesThere(backup, disk.undo.dirs)
      modifies this`journal, disk`live, disk`undo, disk`clock, disk`trace
      ensures Forward() && disk.clock >= old(disk.clock)
      ensures cause.None? ==> journal == old(journal) + [MoveRecord(job, target)]
      ensures cause.None? ==> disk.live == PrunedAt(old(disk.live), target)
      ensures cause.Some? ==> Excused(cause.value) && !cause.value.ManifestTemporaryFault?
    {
      hide Settled, Excused, AllApplied, SafeSince, UndoKept, Absent, Ready, Job.Backup, Job.Swept, Job.Obstructed,
        Job.Blocked,
        Job.Admitted, Job.Accepts, Job.Safe, Job.Complete, Job.Stows, WellFormed,
        GraftedOnto, FreeForTree;
      ghost var now, trace := disk.clock, disk.trace;
      ReadyFinds(job, journal, created, disk.live, disk.undo.files, target);
      Accepted();
      var free := FreeForTree(disk.undo, backup);
      if free {
        MoveTreeKeeps(job, journal, created, disk.live, disk.undo, target);
        AbsentShrinks(job, journal, |journal|, disk.live.dirs, PrunedAt(disk.live, target).dirs);
        AbsentMore(job, journal, MoveRecord(job, target), PrunedAt(disk.live, target).dirs);
      } else {
        TakenIsCrowded(job, journal, created, disk.live, disk.undo, target);
      }
      var ok := disk.MoveTreeToUndo(target, backup);
      if !ok {
        if !free {
          Obstruction(BackupNameTaken);
          return Some(BackupNameTaken);
        }
        Fault(now);
        return Some(SystemFault);
      }
      SafeExtended(job, trace, start, disk.Now());
      journal := journal + [Record(target, Some(backup), false)];
      cause := None;
    }

    /** What is at the target goes to its backup name, and the journal gets a record of it. */
    method MoveForRollback(target: Path, backup: Path) returns (cause: Option<Cause>)
      requires Forward() && TemporaryUnused() && Ready(job, journal, disk.live, target) && backup == job.Backup(target)
      modifies this`journal, disk`live, disk`undo, disk`clock, disk`trace
      ensures Forward() && disk.clock >= old(disk.clock)
      ensures cause.None? ==> journal == old(journal) + [MoveRecord(job, target)]
      ensures cause.None? ==>
        disk.live == if job.Swept(target) then PrunedAt(old(disk.live), target)
                     else Tree(old(disk.live.files) - {target}, old(disk.live.dirs))
      ensures cause.Some? ==> Excused(cause.value) && !cause.value.ManifestTemporaryFault?
    {
      hide Settled, Excused, AllApplied, SafeSince, UndoKept, Absent, Ready, Job.Backup, Job.Swept;
      ReadyFinds(job, journal, created, disk.live, disk.undo.files, target);
      cause := EnsurePrivateParents(target, backup);
      if cause.Some? { return; }
      var hadOriginal := Exists(disk.live, target);
      if hadOriginal {
        if target in disk.live.dirs {
          cause := MoveTreeAside(target, backup);
        } else {
          cause := MoveFileAside(target, backup);
        }
      } else {
        MoveKeeps(job, journal, created, disk.live, disk.undo, target);
        AbsentMore(job, journal, MoveRecord(job, target), disk.live.dirs);
        assert disk.live.files - {target} == disk.live.files;
        journal := journal + [Record(target, None, false)];
      }
    }

    /** rename of the extracted file onto its target, with the journal flag that follows it. */
    method PublishLast(entry: Path) returns (cause: Option<Cause>)
      requires Forward() && TemporaryUnused() && journal != []
      requires entry == journal[|journal| - 1].target && entry in job.shipped && entry !in disk.live.dirs
      requires Parent(entry) in disk.live.dirs && Holds(disk.extracted, entry, job.shipped[entry])
      modifies this`journal, disk`live, disk`extracted, disk`clock, disk`trace
      ensures Forward() && TemporaryUnused() && disk.clock >= old(disk.clock)
      ensures disk.live.dirs == old(disk.live.dirs)
      ensures cause.None? ==> journal == Published(old(journal)) && disk.extracted == old(disk.extracted) - {entry}
      ensures cause.None? ==> disk.live.files == old(disk.live.files)[entry := job.shipped[entry]]
      ensures cause.Some? ==> journal == old(journal) && Excused(cause.value)
    {
      hide Settled, Excused, AllApplied, SafeSince, UndoKept, Absent;
      ListsShipped(job, journal, created, disk.live);
      ghost var now, trace := disk.clock, disk.trace;
      PublishKeeps(job, journal, created, disk.live, disk.undo, disk.live.files[entry := job.shipped[entry]]);
      AbsentPublished(job, journal, disk.live.dirs);
      var ok := disk.Publish(entry);
      if !ok {
        Fault(now);
        return Some(SystemFault);
      }
      SafeExtended(job, trace, start, disk.Now());
      journal := Published(journal);
      cause := None;
    }

    method ReplaceTarget(entry: Path) returns (cause: Option<Cause>)
      requires Forward() && TemporaryUnused() && OnlyShipped()
      requires entry in job.shipped && !Journaled(journal, entry) && Holds(disk.extracted, entry, job.shipped[entry])
      requires entry != [] && entry !in disk.live.dirs && Parent(entry) in disk.live.dirs
      modifies this`journal, disk`live, disk`undo, disk`extracted, disk`clock, disk`trace
      ensures Forward() && disk.clock >= old(disk.clock)
      ensures cause.None? ==> disk.live == Tree(old(disk.live.files)[entry := job.shipped[entry]], old(disk.live.dirs))
      ensures cause.None? ==> disk.extracted == old(disk.extracted) - {entry}
      ensures cause.None? ==> journal == old(journal) + [MoveRecord(job, entry).(published := true)]
      ensures cause.Some? ==> Excused(cause.value)
    {
      hide Settled, Excused, AllApplied, SafeSince, UndoKept, Absent, Ready, MoveRecord;
      ShippedIsReady(job, journal, created, disk.live, entry);
      cause := MoveForRollback(entry, entry);
      if cause.Some? { return; }
      RecordTarget(entry);
      cause := PublishLast(entry);
      if cause.Some? { return; }
      assert disk.live.files == old(disk.live.files)[entry := job.shipped[entry]];
      ghost var now := disk.clock;
      var ok := disk.Tick();
      if !ok {
        ListsShipped(job, journal, created, disk.live);
        Fault(now);
        return Some(SystemFault);
      }
    }

    lemma RecordTarget(entry: Path)
      ensures MoveRecord(job, entry).target == entry
    {
    }

    method PublishEntry(entry: Path) returns (cause: Option<Cause>)
      requires Forward() && NoDirectoryGone() && TemporaryUnused() && OnlyShipped() && CreatedAbove(job, created)
      requires entry in job.shipped && !Journaled(journal, entry) && Holds(disk.extracted, entry, job.shipped[entry])
      modifies this`journal, this`created, disk`live, disk`undo, disk`extracted, disk`clock, disk`trace
      ensures Forward() && CreatedAbove(job, created) && disk.clock >= old(disk.clock)
      ensures cause.None? ==> NoDirectoryGone() && disk.extracted == old(disk.extracted) - {entry}
      ensures cause.None? ==> disk.live.files == old(disk.live.files)[entry := job.shipped[entry]]
      ensures cause.None? ==> journal == old(journal) + [MoveRecord(job, entry).(published := true)]
      ensures cause.Some? ==> Excused(cause.value)
    {
      hide Settled, Excused, AllApplied, SafeSince, UndoKept, Absent, AllDirectories, CreatedAbove, MoveRecord;
      var ok := EnsureReleaseParents(entry);
      if !ok {
        ghost var now :| begun <= now < disk.clock && disk.fault(now);
        Fault(now);
        return Some(SystemFault);
      }
      ListsShipped(job, journal, created, disk.live);
      ShippedIsReady(job, journal, created, disk.live, entry);
      cause := ReplaceTarget(entry);
    }

    /** The publishing loop: afterwards the journal lists exactly the shipped files, all published and there. */
    method PublishFiles() returns (cause: Option<Cause>)
      requires Forward() && NoDirectoryGone() && TemporaryUnused() && CreatedAbove(job, created)
      requires journal == [] && disk.extracted == job.shipped
      modifies this`journal, this`created, disk`live, disk`undo, disk`extracted, disk`clock, disk`trace
      ensures Forward() && CreatedAbove(job, created) && disk.clock >= old(disk.clock)
      ensures cause.None? ==> AllPublished(job, journal) && AllThere(job, created, disk.live) && TemporaryUnused()
      ensures cause.Some? ==> Excused(cause.value)
    {
      hide Settled, Excused, AllApplied, SafeSince, UndoKept, Absent, CreatedAbove,
        Job.Admitted, Job.Accepts, Protected, WellFormed;
      ListsShipped(job, journal, created, disk.live);
      for i := 0 to |job.current|
        invariant Forward() && NoDirectoryGone() && TemporaryUnused() && CreatedAbove(job, created)
        invariant OnlyShipped() && disk.clock >= old(disk.clock)
        invariant |journal| == i
        invariant forall k | 0 <= k < i :: journal[k].target == job.current[k] && journal[k].published
        invariant forall k | 0 <= k < i :: job.current[k] in disk.live.files
        invariant forall k | i <= k < |job.current| ::
          Holds(disk.extracted, job.current[k], job.shipped[job.current[k]])
      {
        assert !Journaled(journal, job.current[i]);
        cause := PublishEntry(job.current[i]);
        if cause.Some? { return; }
      }
      cause := None;
    }

    // ---- The stale files ----

    /** One stale name: whatever is there goes to the rollback tree. */
    method RemoveStaleEntry(n: nat) returns (cause: Option<Cause>)
      requires Forward() && TemporaryUnused() && BeforeManifest(job, journal) && CreatedAbove(job, created)
      requires n < |job.stale| && SweptUpTo(job, created, disk.live, n) && !Journaled(journal, job.stale[n])
      modifies this`journal, disk`live, disk`undo, disk`clock, disk`trace
      ensures Forward() && disk.clock >= old(disk.clock)
      ensures cause.None? ==> TemporaryUnused() && SweptUpTo(job, created, disk.live, n + 1)
      ensures cause.None? ==>
        journal == old(journal) || journal == old(journal) + [MoveRecord(job, job.stale[n])]
      ensures cause.None? && job.Handled(job.stale[n]) ==> journal == old(journal) + [MoveRecord(job, job.stale[n])]
      ensures cause.Some? ==> Excused(cause.value)
    {
      hide Settled, Excused, AllApplied, SafeSince, UndoKept, Absent, Ready, Job.Backup, Job.Swept, Job.Handled,
        SweptUpTo, CreatedAbove, BeforeManifest, MoveRecord, AllShippedDone;
      var target := job.stale[n];
      Accepted();
      StaleIsNotShipped(job);
      ShippedAreDone(job, journal);
      StaleFound(job, journal, created, disk.live, n);
      if Exists(disk.live, target) {
        StaleIsReady(job, journal, disk.live, target);
        ReadyFinds(job, journal, created, disk.live, disk.undo.files, target);
        hide Job.Admitted, Job.Accepts;
        cause := MoveForRollback(target, ["stale"] + target);
        if cause.Some? { return; }
        TargetHasGone(old(disk.live), disk.live, target);
      }
      SweptOneMore(job, created, old(disk.live), disk.live, n);
      cause := None;
    }

    /** The stale loop: afterwards nothing is left at a stale name, and whatever was there is journaled. A
        shipped file is still there exactly if it lies under no stale name. */
    method RemoveStale() returns (cause: Option<Cause>)
      requires Forward() && TemporaryUnused() && CreatedAbove(job, created)
      requires AllPublished(job, journal) && AllThere(job, created, disk.live)
      modifies this`journal, disk`live, disk`undo, disk`clock, disk`trace
      ensures Forward() && disk.clock >= old(disk.clock)
      ensures cause.None? ==> TemporaryUnused() && BeforeManifest(job, journal)
      ensures cause.None? ==> forall s | s in job.stale && job.Handled(s) :: Journaled(journal, s)
      ensures cause.None? ==> forall p | p in job.stale :: !Exists(disk.live, p)
      ensures cause.None? ==> forall p | p in job.shipped :: p in disk.live.files <==> !job.UnderStale(p)
      ensures cause.Some? ==> Excused(cause.value)
    {
      hide Settled, Excused, AllApplied, SafeSince, UndoKept, Absent, Job.Handled, Job.Swept, Job.UnderStale,
        SweptUpTo, CreatedAbove, AllThere;
      SweepStarts(job, created, disk.live);
      ListsShipped(job, journal, created, disk.live);
      ListsStale();
      for i := 0 to |job.stale|
        invariant Forward() && TemporaryUnused() && disk.clock >= old(disk.clock)
        invariant BeforeManifest(job, journal) && SweptUpTo(job, created, disk.live, i)
        invariant forall k | |job.current| <= k < |journal| :: journal[k].target in job.stale[..i]
        invariant forall k | 0 <= k < i && job.Handled(job.stale[k]) :: Journaled(journal, job.stale[k])
      {
        ghost var was := journal;
        NotYet(i);
        cause := RemoveStaleEntry(i);
        if cause.Some? { return; }
        OneMoreStale(was, i);
      }
      Accepted();
      SweptAll(job, created, disk.live);
      cause := None;
    }

    lemma ListsStale()
      requires Base()
      ensures NoRepeats(job.stale) && forall k | 0 <= k < |job.stale| :: job.stale[k] !in job.shipped
    {
    }

    lemma NotYet(i: nat)
      requires BeforeManifest(job, journal) && i < |job.stale| && NoRepeats(job.stale) && job.stale[i] !in job.shipped
      requires forall k | 0 <= k < |job.current| :: job.current[k] in job.shipped
      requires forall k | |job.current| <= k < |journal| :: journal[k].target in job.stale[..i]
      ensures !Journaled(journal, job.stale[i])
    {
    }

    lemma OneMoreStale(was: seq<Record>, i: nat)
      requires i < |job.stale| && BeforeManifest(job, was)
      requires forall k | |job.current| <= k < |was| :: was[k].target in job.stale[..i]
      requires forall k | 0 <= k < i && job.Handled(job.stale[k]) :: Journaled(was, job.stale[k])
      requires journal == was || journal == was + [MoveRecord(job, job.stale[i])]
      requires job.Handled(job.stale[i]) ==> journal == was + [MoveRecord(job, job.stale[i])]
      ensures BeforeManifest(job, journal)
      ensures forall k | |job.current| <= k < |journal| :: journal[k].target in job.stale[..i + 1]
      ensures forall k | 0 <= k < i + 1 && job.Handled(job.stale[k]) :: Journaled(journal, job.stale[k])
    {
      hide Job.Handled, Job.Swept, Job.Backup;
      assert job.stale[..i + 1] == job.stale[..i] + [job.stale[i]];
      JournalGrows(was, MoveRecord(job, job.stale[i]));
    }

    // ---- The manifest ----

    /** The calls that leave the temporary manifest when they fail: its write and close, and the rename, right
        after its creation at that moment. */
    ghost predicate LeavesTemporary(creation: nat) reads disk {
      && !disk.fault(creation)
      && (disk.fault(creation + 1) || disk.full(creation + 1) || disk.fault(creation + 2) || disk.fault(creation + 3))
    }

    /** The new manifest, written under a temporary name and renamed into place. If the creation of that name is
        reached, at `creation`, the four calls decide: the temporary file is left exactly if it was created and
        one of the other three failed, and all is well exactly if none failed. */
    method PublishManifest(partial: Content) returns (cause: Option<Cause>, ghost creation: Option<nat>)
      requires Forward() && TemporaryUnused() && BeforeManifest(job, journal)
      modifies this`journal, disk`live, disk`undo, disk`clock, disk`trace
      ensures Forward() && disk.clock >= old(disk.clock)
      ensures cause.None? ==>
        TemporaryUnused() && |journal| == |old(journal)| + 1 && journal[..|old(journal)|] == old(journal)
      ensures cause.None? ==> journal[|old(journal)|].target == MANIFEST
      ensures cause.None? ==> MANIFEST in disk.live.files && disk.live.files[MANIFEST].content == job.manifest
      ensures cause.None? ==> forall p | p != MANIFEST :: Same(disk.live.files, old(disk.live.files), p)
      ensures cause.None? ==> disk.live.dirs == old(disk.live.dirs)
      ensures cause.Some? ==> Excused(cause.value)
      ensures creation.Some? ==> old(disk.clock) <= creation.value < disk.clock
      ensures cause.Some? && cause.value.ManifestTemporaryFault? <==> creation.Some? && LeavesTemporary(creation.value)
      ensures cause.None? <==> creation.Some? && !disk.fault(creation.value) && !LeavesTemporary(creation.value)
      ensures cause.None? ==> Roomy()
    {
      hide Settled, Excused, AllApplied, SafeSince, UndoKept, Absent, Ready, Job.Swept, BeforeManifest, LeavesTemporary,
        Roomy;
      creation := None;
      ManifestIsReady(job, journal, created, disk.live);
      ghost var before := disk.live.files;
      cause := MoveForRollback(MANIFEST, ["manifest", "previous.json"]);
      if cause.Some? { return; }
      ghost var moved := disk.live.files;
      creation := Some(disk.clock);
      cause := ReplaceManifest(partial);
      if cause.Some? { return; }
      forall p | p != MANIFEST ensures Same(disk.live.files, before, p) {
        assert Same(disk.live.files, moved, p) && Same(moved, before, p);
      }
    }

    /** The four calls after the old manifest has been moved aside. */
    method ReplaceManifest(partial: Content) returns (cause: Option<Cause>)
      requires Forward() && TemporaryUnused() && journal != [] && journal[|journal| - 1].target == MANIFEST
      requires MANIFEST !in job.shipped
      modifies this`journal, disk`live, disk`clock, disk`trace
      ensures Forward() && disk.clock > old(disk.clock)
      ensures disk.live.dirs == old(disk.live.dirs)
      ensures cause.None? ==> TemporaryUnused() && journal == Published(old(journal)) && Roomy()
      ensures cause.None? ==> MANIFEST in disk.live.files && disk.live.files[MANIFEST].content == job.manifest
      ensures cause.None? ==> forall p | p != MANIFEST :: Same(disk.live.files, old(disk.live.files), p)
      ensures cause.Some? ==> Excused(cause.value)
      ensures cause.Some? && cause.value.ManifestTemporaryFault? <==> LeavesTemporary(old(disk.clock))
      ensures cause.None? <==> !disk.fault(old(disk.clock)) && !LeavesTemporary(old(disk.clock))
    {
      hide Forward, Excused;
      Begun();
      ghost var moved, creation := disk.live.files, disk.clock;
      cause := WriteTemporary(partial);
      if cause.Some? { return; }
      ghost var written := disk.live.files;
      cause := RenameManifest();
      if cause.Some? { return; }
      assert !disk.full(creation + 1);
      TemporaryRenamed(job.temporary, moved, written, disk.live.files);
    }

    lemma Begun()
      requires Forward()
      ensures begun <= disk.clock
    {
    }

    lemma TemporaryRenamed(temporary: Path, moved: map<Path, File>, written: map<Path, File>, now: map<Path, File>)
      requires temporary !in moved && temporary !in now && written - {temporary} == moved - {temporary}
      requires forall p | p != MANIFEST && p != temporary :: Same(now, written, p)
      ensures forall p | p != MANIFEST :: Same(now, moved, p)
    {
      forall p | p != MANIFEST ensures Same(now, moved, p) {
        if p != temporary {
          assert p in written - {temporary} <==> p in moved - {temporary};
          assert Same(written, moved, p) && Same(now, written, p);
        }
      }
    }

    lemma TemporaryFault(now: nat)
      requires job.temporary in disk.live.files && begun <= now < disk.clock && (disk.fault(now) || disk.full(now))
      ensures Excused(ManifestTemporaryFault)
    {
      assert disk.fault(now) || disk.full(now);
    }

    method WriteTemporary(partial: Content) returns (cause: Option<Cause>)
      requires Forward() && TemporaryUnused()
      modifies disk`live, disk`clock, disk`trace
      ensures Forward() && disk.clock > old(disk.clock)
      ensures disk.live.dirs == old(disk.live.dirs)
      ensures disk.live.files - {job.temporary} == old(disk.live.files) - {job.temporary}
      ensures cause.None? ==> job.temporary in disk.live.files && disk.live.files[job.temporary].content == job.manifest
      ensures cause.Some? ==> Excused(cause.value)
      ensures cause.Some? ==> (cause.value.ManifestTemporaryFault? <==> !disk.fault(old(disk.clock)))
      ensures cause.None? ==> disk.clock == old(disk.clock) + 3
      ensures cause.Some? <==>
        (|| disk.fault(old(disk.clock)) || disk.fault(old(disk.clock) + 1) || disk.full(old(disk.clock) + 1)
         || disk.fault(old(disk.clock) + 2))
    {
      hide Settled, Excused, AllApplied, SafeSince, UndoKept, Absent, Job.Safe, Job.Admitted, Job.Accepts, Protected;
      TemporaryNames(job, journal, created, disk.live);
      ghost var now, live, trace := disk.clock, disk.live, disk.trace;
      var ok := disk.CreateExclusive(job.temporary);
      if !ok {
        Fault(now);
        return Some(SystemFault);
      }
      TemporaryChanged(job, journal, created, live, disk.undo.files, disk.live.files);
      SafeExtended(job, trace, start, disk.Now());
      cause := FillTemporary(partial);
    }

    method FillTemporary(partial: Content) returns (cause: Option<Cause>)
      requires Forward() && job.temporary in disk.live.files
      modifies disk`live, disk`clock, disk`trace
      ensures Forward() && disk.clock >= old(disk.clock)
      ensures disk.live.dirs == old(disk.live.dirs)
      ensures disk.live.files - {job.temporary} == old(disk.live.files) - {job.temporary}
      ensures cause.None? ==> job.temporary in disk.live.files && disk.live.files[job.temporary].content == job.manifest
      ensures cause.Some? ==> Excused(cause.value) && cause.value.ManifestTemporaryFault?
      ensures cause.None? ==> disk.clock == old(disk.clock) + 2
      ensures cause.Some? <==>
        disk.fault(old(disk.clock)) || disk.full(old(disk.clock)) || disk.fault(old(disk.clock) + 1)
    {
      hide Settled, Excused, AllApplied, SafeSince, UndoKept, Absent, Job.Safe;
      ghost var now := disk.clock;
      var ok := WriteManifest(partial);
      if ok {
        now := disk.clock;
        ok := disk.Tick();
      }
      if !ok {
        TemporaryFault(now);
        return Some(ManifestTemporaryFault);
      }
      cause := None;
    }

    method WriteManifest(partial: Content) returns (ok: bool)
      requires Forward() && job.temporary in disk.live.files
      modifies disk`live, disk`clock, disk`trace
      ensures Forward() && disk.clock == old(disk.clock) + 1 && disk.Valid()
      ensures disk.live.dirs == old(disk.live.dirs) && job.temporary in disk.live.files
      ensures disk.live.files - {job.temporary} == old(disk.live.files) - {job.temporary}
      ensures ok ==> disk.live.files[job.temporary].content == job.manifest
      ensures ok <==> !disk.fault(old(disk.clock)) && !disk.full(old(disk.clock))
    {
      hide Settled, AllApplied, SafeSince, UndoKept, Absent, Job.Safe;
      ghost var live, trace := disk.live, disk.trace;
      ok := disk.WriteContent(job.temporary, job.manifest, partial);
      TemporaryChanged(job, journal, created, live, disk.undo.files, disk.live.files);
      SafeExtended(job, trace, start, disk.Now());
    }

    method RenameManifest() returns (cause: Option<Cause>)
      requires Forward() && journal != [] && journal[|journal| - 1].target == MANIFEST
      requires job.temporary in disk.live.files && MANIFEST !in job.shipped
      modifies this`journal, disk`live, disk`clock, disk`trace
      ensures Forward() && disk.clock >= old(disk.clock)
      ensures disk.live.dirs == old(disk.live.dirs)
      ensures cause.None? ==> TemporaryUnused() && journal == Published(old(journal))
      ensures cause.None? ==> MANIFEST in disk.live.files
      ensures cause.None? ==> disk.live.files[MANIFEST].content == old(disk.live.files[job.temporary]).content
      ensures cause.None? ==>
        forall p | p != MANIFEST && p != job.temporary :: Same(disk.live.files, old(disk.live.files), p)
      ensures cause.Some? ==> Excused(cause.value) && cause.value.ManifestTemporaryFault?
      ensures cause.Some? <==> disk.fault(old(disk.clock))
    {
      hide Settled, Excused, AllApplied, SafeSince, UndoKept, Absent, Job.Safe;
      TemporaryNames(job, journal, created, disk.live);
      ghost var now, trace := disk.clock, disk.trace;
      var ok := disk.RenameLive(job.temporary, MANIFEST);
      if !ok {
        TemporaryFault(now);
        return Some(ManifestTemporaryFault);
      }
      PublishKeeps(job, journal, created, old(disk.live), disk.undo, disk.live.files);
      AbsentPublished(job, journal, disk.live.dirs);
      SafeExtended(job, trace, start, disk.Now());
      journal := Published(journal);
      cause := None;
    }

    // ---- After the manifest ----

    /** The mode of the root, then the identities of the persistent paths: they never differ. */
    method CheckPersistent() returns (cause: Option<Cause>)
      requires Forward() && TemporaryUnused() && job.Complete(journal)
      modifies disk`clock
      ensures Forward() && disk.clock >= old(disk.clock)
      ensures cause.None? ==> Identities(disk.live) == Identities(job.before) && Steady()
      ensures cause.Some? ==> Excused(cause.value)
      ensures cause.Some? ==> cause.value == if disk.barred(old(disk.clock)) then RootBarred else SystemFault
    {
      hide Settled, Excused, AllApplied, SafeSince, UndoKept, Absent, Identities, Job.Complete;
      ghost var now := disk.clock;
      var barred := disk.barred(disk.clock);
      var ok := disk.EnforceRoot();
      if !ok {
        if barred {
          Barred(now);
          return Some(RootBarred);
        }
        Fault(now);
        return Some(SystemFault);
      }
      assert !disk.barred(now);
      PersistentUntouched(job, journal, created, disk.live);
      if Identities(disk.live) != Identities(job.before) { return Some(PersistentIdentityChanged); }
      now := disk.clock;
      ok := disk.Tick();
      if !ok {
        Fault(now);
        return Some(SystemFault);
      }
      cause := None;
    }

    lemma Barred(now: nat)
      requires TemporaryUnused() && job.Complete(journal) && begun <= now < disk.clock && disk.barred(now)
      ensures Excused(RootBarred)
    {
      assert disk.barred(now);
    }

    /** The hook, as a reason to stop. */
    method Pause(point: Point) returns (cause: Option<Cause>)
      requires Forward() && TemporaryUnused() && point != BeforeRollbackRecord
      requires Injected(point).Late() ==> job.Complete(journal)
      modifies disk`clock
      ensures Forward() && disk.clock == old(disk.clock) + 1
      ensures cause.None? ==> point !in hooks
      ensures cause.Some? ==> Excused(cause.value)
    {
      hide Settled, AllApplied, SafeSince, UndoKept, Absent, Job.Complete, Job.Obstructed, Job.Blocked;
      cause := Inject(point);
    }

    /** Publishing and stale files, each followed by the installer's hook. */
    method ReplaceSources() returns (cause: Option<Cause>)
      requires Forward() && NoDirectoryGone() && TemporaryUnused() && CreatedAbove(job, created)
      requires journal == [] && disk.extracted == job.shipped
      modifies this`journal, this`created, disk`live, disk`undo, disk`extracted, disk`clock, disk`trace
      ensures Forward() && CreatedAbove(job, created) && disk.clock >= old(disk.clock)
      ensures cause.None? ==> TemporaryUnused() && BeforeManifest(job, journal)
      ensures cause.None? ==> AfterSourcePublish !in hooks && AfterStaleMove !in hooks
      ensures cause.None? ==> forall s | s in job.stale && job.Handled(s) :: Journaled(journal, s)
      ensures cause.None? ==> forall p | p in job.stale :: !Exists(disk.live, p)
      ensures cause.None? ==> forall p | p in job.shipped :: p in disk.live.files <==> !job.UnderStale(p)
      ensures cause.Some? ==> Excused(cause.value)
    {
      hide Settled, Excused, AllApplied, SafeSince, UndoKept, Absent, Job.Handled, Job.UnderStale, AllDirectories,
        BeforeManifest, AllPublished, AllThere, CreatedAbove;
      cause := PublishFiles();
      if cause.Some? { return; }
      cause := Pause(AfterSourcePublish);
      if cause.Some? { return; }
      cause := RemoveStale();
      if cause.Some? { return; }
      cause := Pause(AfterStaleMove);
    }

    /** Sources, then the manifest as the commit record. */
    method ReplaceAll(partial: Content) returns (cause: Option<Cause>)
      requires Forward() && NoDirectoryGone() && TemporaryUnused() && CreatedAbove(job, created)
      requires journal == [] && disk.extracted == job.shipped
      modifies this`journal, this`created, disk`live, disk`undo, disk`extracted, disk`clock, disk`trace
      ensures Forward() && CreatedAbove(job, created) && disk.clock >= old(disk.clock)
      ensures cause.None? ==> TemporaryUnused() && job.Complete(journal) && !job.Obstructed()
      ensures cause.None? ==> AfterSourcePublish !in hooks && AfterStaleMove !in hooks
      ensures cause.None? ==> FilesInPlace(job, disk.live) && Roomy()
      ensures cause.Some? ==> Excused(cause.value)
    {
      hide Settled, Excused, AllApplied, SafeSince, UndoKept, Absent, Job.Handled, Job.UnderStale, AllDirectories,
        BeforeManifest, CreatedAbove, FilesInPlace, Job.Complete, Job.Obstructed, Roomy, LeavesTemporary;
      cause := ReplaceSources();
      if cause.Some? { return; }
      ghost var before, was := journal, disk.live;
      ghost var creation;
      cause, creation := PublishManifest(partial);
      if cause.Some? { return; }
      AllReplaced(before, was);
    }

    lemma AllReplaced(before: seq<Record>, was: Tree)
      requires Forward() && TemporaryUnused() && BeforeManifest(job, before)
      requires forall s | s in job.stale && job.Handled(s) :: Journaled(before, s)
      requires forall p | p in job.stale :: !Exists(was, p)
      requires forall p | p in job.shipped :: p in was.files <==> !job.UnderStale(p)
      requires |journal| == |before| + 1 && journal[..|before|] == before && journal[|before|].target == MANIFEST
      requires MANIFEST in disk.live.files && disk.live.files[MANIFEST].content == job.manifest
      requires disk.live.dirs == was.dirs && forall p | p != MANIFEST :: Same(disk.live.files, was.files, p)
      ensures FilesInPlace(job, disk.live) && job.Complete(journal) && !job.Obstructed()
    {
      hide Settled, AllApplied, SafeSince, UndoKept, Absent, Job.Handled, Job.UnderStale, BeforeManifest, Job.Installed,
        Job.Complete, Job.Obstructed;
      Accepted();
      OthersUnmoved(was);
      FilesInstalled(job, journal, created, disk.live, disk.undo.files);
      JournalComplete(job, journal);
      Unobstructed();
    }

    /** Writing the manifest leaves the other paths alone. */
    lemma OthersUnmoved(was: Tree)
      requires Base() && forall p | p != MANIFEST :: Same(disk.live.files, was.files, p)
      requires disk.live.dirs == was.dirs
      requires forall p | p in job.stale :: !Exists(was, p)
      requires forall p | p in job.shipped :: p in was.files <==> !job.UnderStale(p)
      ensures forall p | p in job.stale :: !Exists(disk.live, p)
      ensures forall p | p in job.shipped :: p in disk.live.files <==> !job.UnderStale(p)
    {
      hide Job.UnderStale, Job.Accepts, DirectoriesKept, SafeSince;
      ManifestIsNeither(job);
      forall p | p in job.stale ensures !Exists(disk.live, p) { assert Same(disk.live.files, was.files, p); }
      forall p | p in job.shipped ensures p in disk.live.files <==> !job.UnderStale(p) {
        assert Same(disk.live.files, was.files, p);
      }
    }

    lemma Unobstructed()
      requires Forward() && forall q | job.Handled(q) :: Journaled(journal, q)
      ensures !job.Obstructed()
    {
      hide Job.Handled, Job.Admitted, Job.Accepts, Stowed, NamesKnown, Absent, SafeSince, DirectoriesKept, Applied;
      NothingObstructed(job, journal, disk.undo);
    }

    /** The removal of emptied parents, still under the protection of the journal. */
    method CleanUp() returns (cause: Option<Cause>)
      requires Forward() && CreatedAbove(job, created) && TemporaryUnused() && FilesInPlace(job, disk.live)
      requires job.Complete(journal)
      modifies disk`live, disk`clock
      ensures Forward() && disk.clock >= old(disk.clock)
      ensures cause.None? ==> job.InstalledIn(disk.live) && !job.Blocked()
      ensures cause.Some? ==> Excused(cause.value)
    {
      hide Settled, AllApplied, SafeSince, UndoKept, Absent, EmptyParents.Pruned, EmptyParents.Removable,
        Job.UnderStale,
        Job.Installed, Job.Complete, Job.Obstructed, Job.Blocked, CreatedAbove, Ancestor, EmptyDirectory;
      ghost var was := disk.live;
      var ok := EmptyParents.RemoveEmptyParents(disk, job.stale);
      PrunedSettled(job, journal, created, was, disk.live);
      PrunedAbsent(was);
      if !ok {
        if exists d :: Ancestor(job.stale, d) && d in disk.live.files {
          var d :| Ancestor(job.stale, d) && d in disk.live.files;
          BlockedByShipped(job, journal, created, disk.live, d);
        }
        return Some(ParentNotDirectory);
      }
      NotBlocked(job, disk.live);
      DirectoriesInstalled(job, journal, created, disk.live);
      cause := None;
    }

    lemma PrunedAbsent(was: Tree)
      requires EmptyParents.Pruned(was, disk.live, job.stale) && Absent(job, journal, |journal|, was.dirs)
      ensures Absent(job, journal, |journal|, disk.live.dirs)
      ensures forall p | !Exists(was, p) :: !Exists(disk.live, p)
    {
    }

    /** The body of the installer's try block. */
    method Mutate(partial: Content) returns (cause: Option<Cause>)
      requires Forward() && NoDirectoryGone() && TemporaryUnused() && CreatedAbove(job, created)
      requires journal == [] && disk.extracted == job.shipped
      modifies this`journal, this`created, disk`live, disk`undo, disk`extracted, disk`clock, disk`trace
      ensures Forward() && disk.clock >= old(disk.clock)
      ensures cause.None? ==> job.InstalledIn(disk.live) && !job.Obstructed() && !job.Blocked() && Roomy() && Steady()
      ensures cause.None? ==> forall point | point in hooks :: point == BeforeRollbackRecord
      ensures cause.Some? ==> Excused(cause.value)
    {
      hide Settled, Excused, AllApplied, SafeSince, UndoKept, Absent, AllDirectories, CreatedAbove, FilesInPlace,
        Job.Complete,
        Job.InstalledIn, Job.Obstructed, Job.Blocked;
      cause := ReplaceAll(partial);
      if cause.Some? { return; }
      cause := Pause(AfterManifestPublish);
      if cause.Some? { return; }
      cause := CheckPersistent();
      if cause.Some? { return; }
      cause := Pause(AfterPersistentVerify);
      if cause.Some? { return; }
      cause := VerifyRoot();
      if cause.Some? { return; }
      cause := CleanUp();
    }

    /** The mode and owner of the release root. */
    method VerifyRoot() returns (cause: Option<Cause>)
      requires TemporaryUnused() && begun <= disk.clock
      modifies disk`clock
      ensures disk.clock == old(disk.clock) + 1
      ensures cause.Some? ==> Excused(cause.value)
    {
      ghost var now := disk.clock;
      var ok := disk.Tick();
      if !ok {
        Fault(now);
        return Some(SystemFault);
      }
      cause := None;
    }

    // ---- Rolling back ----

    /** The rollback has dealt with the records from k on. */
    ghost predicate Restoring(k: nat, clean: bool) reads this, disk
      requires k <= |journal|
    {
      && Base() && Undoing(job, journal, k, clean, disk.live.files, disk.undo.files)
      && UndoUsable(job, journal, created, disk.undo) && Absent(job, journal, k, disk.live.dirs)
    }

    lemma StartRollback()
      requires Forward()
      ensures Restoring(|journal|, true)
    {
      hide UndoKept, Settled, Applied;
      UsableFromKept(job, journal, created, disk.live.files, disk.undo);
    }

    /** Undoing the published side of a record: the file, and only the file, is unlinked. */
    method UnlinkPublished(k: nat, ghost clean: bool) returns (ok: bool)
      requires k < |journal| && Restoring(k + 1, clean)
      modifies disk`live, disk`clock, disk`trace
      ensures Restoring(k, false) && disk.clock >= old(disk.clock)
      ensures disk.live.dirs == old(disk.live.dirs)
      ensures journal[k].target in disk.live.files ==> disk.live.files == old(disk.live.files)
      ensures journal[k].target !in disk.live.files ==> disk.live.files == old(disk.live.files) - {journal[k].target}
      ensures ok ==> journal[k].target !in disk.live.files
      ensures !journal[k].published ==> disk.live == old(disk.live)
      ensures !ok ==> Broken()
    {
      hide Settled, SafeSince, Undoing, UndoUsable, Absent;
      Accepted();
      AbsentFewer(k, disk.live.dirs);
      Unpublished(job, journal, k, clean, disk.live.files, disk.undo.files);
      TargetInPlace(job, journal, created, disk.live, disk.undo.files, k, clean);
      var target := journal[k].target;
      ok := true;
      if journal[k].published && Exists(disk.live, target) {
        ghost var now, trace := disk.clock, disk.trace;
        ok := disk.Tick();
        if !ok {
          assert disk.fault(now);
          return;
        }
        now := disk.clock;
        ok := disk.Unlink(target);
        if !ok {
          assert disk.fault(now);
          return;
        }
        TargetChanged(job, journal, created, old(disk.live), k, disk.live.files);
        UndoingIsSafe(job, journal, k, false, created, disk.live, disk.undo.files);
        SafeExtended(job, trace, start, disk.Now());
      } else {
        assert disk.live.files - {target} == disk.live.files;
      }
    }

    lemma AbsentFewer(k: nat, dirs: map<Path, nat>)
      requires k < |journal| && Absent(job, journal, k + 1, dirs)
      ensures Absent(job, journal, k, dirs)
    {
    }

    /** One directory above something that is to be moved back. */
    method RestoreParent(k: nat, j: nat) returns (ok: bool)
      requires k < |journal| && Base() && Absent(job, journal, k + 1, disk.live.dirs)
      requires journal[k].target in job.before.files || (job.Stows(journal[k]) && journal[k].target in created)
      requires 0 < j < |journal[k].target| && journal[k].target[..j - 1] in disk.live.dirs
      modifies disk`live, disk`clock
      ensures Base() && Absent(job, journal, k + 1, disk.live.dirs) && disk.clock >= old(disk.clock)
      ensures disk.live.files == old(disk.live.files)
      ensures ok ==> journal[k].target[..j] in disk.live.dirs
      ensures !ok ==> Broken()
    {
      hide Settled, SafeSince, Absent, Job.Stows;
      Accepted();
      hide Job.Admitted, Job.Accepts;
      var target := journal[k].target;
      var d := target[..j];
      assert Parent(d) == target[..j - 1];
      NoFileAboveOriginal(job, journal, created, disk.live, target, j);
      ok := true;
      if !Exists(disk.live, d) {
        DirectoryRestored(job, journal, created, disk.live, d, disk.inode(disk.clock));
        ParentIsNotMoved(job, journal, k, k + 1, disk.live.dirs, j, disk.inode(disk.clock));
        ghost var now := disk.clock;
        ok := disk.MakeLiveDirectory(d);
        assert !ok ==> disk.fault(now);
      }
    }

    /** mkdir -p of all of them. */
    method RestoreParents(k: nat) returns (ok: bool)
      requires k < |journal| && Base() && Absent(job, journal, k + 1, disk.live.dirs)
      requires journal[k].target in job.before.files || (job.Stows(journal[k]) && journal[k].target in created)
      requires journal[k].target != []
      modifies disk`live, disk`clock
      ensures Base() && Absent(job, journal, k + 1, disk.live.dirs) && disk.clock >= old(disk.clock)
      ensures disk.live.files == old(disk.live.files)
      ensures ok ==> Parent(journal[k].target) in disk.live.dirs
      ensures !ok ==> Broken()
    {
      hide Settled, SafeSince, Absent, Job.Stows;
      for j := 1 to |journal[k].target|
        invariant Base() && Absent(job, journal, k + 1, disk.live.dirs) && disk.clock >= old(disk.clock)
        invariant disk.live.files == old(disk.live.files)
        invariant journal[k].target[..j - 1] in disk.live.dirs
      {
        ok := RestoreParent(k, j);
        if !ok { return; }
      }
      ok := true;
    }

    /** One record of the journal, undone. A failure leaves the record half undone and is reported. */
    method RestoreRecord(k: nat, ghost clean: bool) returns (ok: bool)
      requires k < |journal| && Restoring(k + 1, clean)
      modifies disk`live, disk`undo, disk`clock, disk`trace
      ensures Restoring(k, clean && ok) && disk.clock >= old(disk.clock)
      ensures Same(disk.live.files, old(disk.live.files), job.temporary)
      ensures BeforeRollbackRecord in hooks ==> !ok
      ensures !ok ==> Broken() || BeforeRollbackRecord in hooks
    {
      hide Settled, SafeSince, Undoing, UndoUsable, Absent;
      ghost var files := disk.live.files;
      Accepted();
      AbsentFewer(k, disk.live.dirs);
      Unpublished(job, journal, k, clean, files, disk.undo.files);
      TargetInPlace(job, journal, created, disk.live, disk.undo.files, k, clean);
      var cause := Inject(BeforeRollbackRecord);
      if cause.Some? { return false; }
      ok := UnlinkPublished(k, clean);
      if !ok { return; }
      if journal[k].backup.Some? && Exists(disk.undo, journal[k].backup.value) {
        ok := RestoreOriginal(k, clean, files);
      } else {
        NothingToRestore(job, journal, k, clean, files, disk.undo.files);
      }
    }

    /** The other side of a record: what was moved aside goes back. */
    method RestoreOriginal(k: nat, ghost clean: bool, ghost files: map<Path, File>) returns (ok: bool)
      requires k < |journal| && Restoring(k, false) && Absent(job, journal, k + 1, disk.live.dirs)
      requires Undoing(job, journal, k + 1, clean, files, disk.undo.files)
      requires disk.live.files == files - {journal[k].target} && (!journal[k].published ==> disk.live.files == files)
      requires journal[k].backup.Some? && Exists(disk.undo, journal[k].backup.value)
      modifies disk`live, disk`undo, disk`clock, disk`trace
      ensures Restoring(k, clean && ok) && disk.clock >= old(disk.clock)
      ensures Same(disk.live.files, old(disk.live.files), job.temporary)
      ensures !ok ==> Broken()
    {
      hide Settled, SafeSince, Undoing, UndoUsable, Absent, Job.Stows;
      Accepted();
      BackupKind(job, journal, created, disk.undo, k);
      BackupNotRoot(job, journal[k].target) by { RecordIsTarget(k); }
      ok := RestoreParents(k);
      AbsentFewer(k, disk.live.dirs);
      if !ok { return; }
      if journal[k].backup.value in disk.undo.dirs {
        StowedUnpublished(k);
        ok := MoveTreeBack(k, clean);
      } else {
        ok := MoveBack(k, clean, files);
      }
    }

    lemma RecordIsTarget(k: nat)
      requires Base() && k < |journal|
      ensures job.Target(journal[k].target)
    {
    }

    lemma StowedUnpublished(k: nat)
      requires Base() && k < |journal| && job.Stows(journal[k])
      ensures !journal[k].published
    {
      StowedIsPublished(job, journal, k, k);
    }

    /** rename of a file back to its target. */
    method MoveBack(k: nat, ghost clean: bool, ghost files: map<Path, File>) returns (ok: bool)
      requires k < |journal| && Restoring(k, false) && journal[k].target in job.before.files
      requires Undoing(job, journal, k + 1, clean, files, disk.undo.files)
      requires disk.live.files == files - {journal[k].target} && Parent(journal[k].target) in disk.live.dirs
      requires journal[k].backup.Some? && journal[k].backup.value in disk.undo.files
      requires journal[k].backup.value !in disk.undo.dirs
      requires journal[k].target != [] && journal[k].target != job.temporary
      modifies disk`live, disk`undo, disk`clock, disk`trace
      ensures Restoring(k, clean && ok) && disk.clock >= old(disk.clock)
      ensures Same(disk.live.files, old(disk.live.files), job.temporary)
      ensures !ok ==> Broken()
    {
      hide Settled, SafeSince, Undoing, UndoUsable, Absent, Job.Admitted, Job.Accepts, Job.Safe;
      Accepted();
      OriginalNoDirectory(job, journal, created, disk.live, journal[k].target);
      FileComesBack(job, journal, created, files, disk.live, disk.undo, k, clean);
      ghost var now, trace := disk.clock, disk.trace;
      ok := disk.MoveFromUndo(journal[k].backup.value, journal[k].target);
      if !ok {
        assert disk.fault(now);
        return;
      }
      SafeExtended(job, trace, start, disk.Now());
    }

    /** rename of a directory back to its target. */
    method MoveTreeBack(k: nat, ghost clean: bool) returns (ok: bool)
      requires k < |journal| && Restoring(k, false) && Absent(job, journal, k + 1, disk.live.dirs)
      requires Undoing(job, journal, k + 1, clean, disk.live.files, disk.undo.files)
      requires job.Stows(journal[k]) && journal[k].backup.Some? && journal[k].target in created
      requires Parent(journal[k].target) in disk.live.dirs && journal[k].backup.value in disk.undo.dirs
      requires journal[k].backup.value != [] && journal[k].target != []
      modifies disk`live, disk`undo, disk`clock, disk`trace
      ensures Restoring(k, clean && ok) && disk.clock >= old(disk.clock)
      ensures Same(disk.live.files, old(disk.live.files), job.temporary)
      ensures !ok ==> Broken()
    {
      hide Settled, SafeSince, Undoing, UndoUsable, Absent, GraftedOnto, PrunedAt, Job.Stows;
      TreeComesBack(job, journal, created, disk.live, disk.undo, k, clean);
      DirectoryIsNoFile(job, journal, created, disk.live, journal[k].target);
      assert journal[k].target !in disk.live.dirs by { LastAbsent(k, disk.live.dirs); }
      ghost var now, trace := disk.clock, disk.trace;
      ok := disk.MoveTreeFromUndo(journal[k].backup.value, journal[k].target);
      if !ok {
        assert disk.fault(now);
        return;
      }
      SafeExtended(job, trace, start, disk.Now());
    }

    lemma LastAbsent(k: nat, dirs: map<Path, nat>)
      requires k < |journal| && Absent(job, journal, k + 1, dirs) && job.Stows(journal[k])
      ensures journal[k].target !in dirs
    {
    }

    /** rmdir of the created directories, latest first; directories that are gone or in use are skipped. */
    method RemoveCreated(ghost clean: bool) returns (ok: bool)
      requires Restoring(0, clean)
      modifies disk`live, disk`clock
      ensures Restoring(0, clean) && disk.clock >= old(disk.clock)
      ensures disk.live.files == old(disk.live.files)
      ensures clean && ok ==> forall k | 0 <= k < |created| :: created[k] !in disk.live.dirs
      ensures !ok ==> Broken()
    {
      hide Settled, SafeSince, Undoing, UndoUsable, EmptyDirectory;
      ok := true;
      var k := |created|;
      while k > 0
        invariant 0 <= k <= |created|
        invariant Restoring(0, clean) && disk.clock >= old(disk.clock)
        invariant disk.live.files == old(disk.live.files)
        invariant clean && ok ==> forall i | k <= i < |created| :: created[i] !in disk.live.dirs
        invariant !ok ==> Broken()
      {
        k := k - 1;
        ghost var now := disk.clock;
        CreatedRemoved(job, journal, created, disk.live, k);
        if clean && ok { CreatedIsEmpty(job, journal, created, disk.live, disk.undo.files, k); }
        var r := disk.RemoveLiveDirectory(created[k]);
        if r.Error? {
          assert disk.fault(now);
          ok := false;
        }
      }
    }

    /** The journal replayed backwards, then the created directories removed; a failing record does not
        stop the others. If none fails every original is back, except those whose backup was lost; in any
        case every original with a backup name of its own is at its target or in the rollback tree. */
    method RestoreJournal() returns (ok: bool)
      requires Forward()
      modifies disk`live, disk`undo, disk`clock, disk`trace
      ensures Base() && job.Safe(disk.Now()) && disk.clock >= old(disk.clock)
      ensures Same(disk.live.files, old(disk.live.files), job.temporary)
      ensures ok ==> forall p | p != job.temporary :: Same(disk.live.files, job.before.files - Lost(journal), p)
      ensures ok ==> forall k | 0 <= k < |created| :: created[k] !in disk.live.dirs
      ensures BeforeRollbackRecord in hooks && journal != [] ==> !ok
      ensures !ok ==> Broken() || BeforeRollbackRecord in hooks
    {
      hide Settled, SafeSince, AllApplied, UndoKept, Undoing, UndoUsable, Absent, Job.Safe;
      StartRollback();
      ok := true;
      var k := |journal|;
      while k > 0
        invariant 0 <= k <= |journal|
        invariant Restoring(k, ok) && disk.clock >= old(disk.clock)
        invariant Same(disk.live.files, old(disk.live.files), job.temporary)
        invariant !ok ==> Broken() || BeforeRollbackRecord in hooks
        invariant BeforeRollbackRecord in hooks && k < |journal| ==> !ok
      {
        k := k - 1;
        ghost var files := disk.live.files;
        var done := RestoreRecord(k, ok);
        ok := ok && done;
      }
      var removed := RemoveCreated(ok);
      UndoingIsSafe(job, journal, 0, ok, created, disk.live, disk.undo.files);
      if ok { FullyUndone(job, journal, created, disk.live, disk.undo.files); }
      ok := ok && removed;
    }

    /** The rollback leaves the reason for it as it was. */
    method Restore(cause: Cause) returns (ok: bool)
      requires Forward() && Excused(cause)
      modifies disk`live, disk`undo, disk`clock, disk`trace
      ensures Base() && job.Safe(disk.Now()) && disk.clock >= old(disk.clock) && Excused(cause)
      ensures ok ==> forall p | p != job.temporary :: Same(disk.live.files, job.before.files - Lost(journal), p)
      ensures ok ==> forall k | 0 <= k < |created| :: created[k] !in disk.live.dirs
      ensures BeforeRollbackRecord in hooks && journal != [] ==> !ok
      ensures !ok ==> Broken() || BeforeRollbackRecord in hooks
    {
      hide Settled, AllApplied, SafeSince, UndoKept, Absent, Job.Safe, Job.Complete, Job.Obstructed, Job.Blocked, Lost;
      ok := RestoreJournal();
    }

    lemma ForwardIsSafe()
      requires Forward()
      ensures job.Safe(disk.Now())
    {
      hide Job.Admitted, Job.Accepts, UndoKept, Absent, Job.Safe, AllApplied, DirectoriesKept, SafeSince;
      AppliedIsSafe(job, journal, disk.Now());
    }

    /** One installation: it commits, or it is rolled back, or the rollback itself was stopped and the
        rollback tree has to be kept. At every instant, and at the end, the originals are safe. Without a
        fault it commits exactly if no hook stops it, no backup is obstructed and nothing blocks the clean-up. */
    method Run(partial: Content) returns (outcome: Outcome)
      requires Forward() && NoDirectoryGone() && TemporaryUnused() && CreatedAbove(job, created)
      requires journal == [] && disk.extracted == job.shipped
      modifies this`journal, this`created, disk`live, disk`undo, disk`extracted, disk`clock, disk`trace
      ensures disk.Valid() && job.Accepts(journal) && disk.clock >= old(disk.clock)
      ensures SafeSince(job, disk.trace, start) && job.Safe(disk.Now())
      ensures forall p | Protected(p) ::
        Same(disk.live.files, job.before.files, p) && Same(disk.live.dirs, job.before.dirs, p)
      ensures outcome.Committed? ==> job.InstalledIn(disk.live)
      ensures outcome.RolledBack? ==> job.RestoredIn(journal, disk.live)
      ensures outcome.Committed? ==> !job.Obstructed() && !job.Blocked() && Roomy() && Steady()
      ensures outcome.Committed? ==> forall point | point in hooks :: point == BeforeRollbackRecord
      ensures !outcome.Committed? ==> Excused(outcome.cause)
      ensures outcome.RecoveryRequired? ==> Broken() || BeforeRollbackRecord in hooks
      ensures outcome.RolledBack? ==> BeforeRollbackRecord !in hooks || journal == []
    {
      hide Settled, Excused, AllApplied, SafeSince, UndoKept, Absent, AllDirectories, CreatedAbove, Protected, Job.Safe,
        Job.Complete, Job.Obstructed, Job.Blocked, Job.InstalledIn;
      var cause := Mutate(partial);
      if cause.None? {
        outcome := Committed;
        ForwardIsSafe();
      } else {
        var restored := Restore(cause.value);
        outcome := if restored then RolledBack(cause.value) else RecoveryRequired(cause.value);
        if restored { DirectoriesRestored(job, journal, created, disk.live); }
      }
      SettledAccepts(job, journal, created, disk.live);
      forall p | Protected(p)
        ensures Same(disk.live.files, job.before.files, p) && Same(disk.live.dirs, job.before.dirs, p)
      {
        ProtectedUntouched(job, journal, created, disk.live, p);
      }
    }
  }
}
