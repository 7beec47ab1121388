/** The pure steps of an installation: what each of them keeps true of the journal and the release tree. */
module InstallSteps {
  import opened Wrappers
  import opened Paths
  import opened FileSystem
  import opened ReleaseSpec
  import opened RollbackNames
  import opened RollbackSteps
  import EmptyParents

  /** A target that is not journaled yet is in its original state; only a stale one can be a directory. */
  lemma UntouchedTarget(job: Job, journal: seq<Record>, live: Tree, created: seq<Path>, target: Path)
    requires Settled(job, journal, created, live) && job.Target(target) && !Journaled(journal, target)
    ensures Same(live.files, job.before.files, target) && target != [] && target != job.temporary
    ensures target !in job.stale ==> target !in live.dirs && !job.Swept(target)
  {
    assert target in created ==> NewDirectory(job, target);
  }

  /** While only shipped files have been published, no file lies above a shipped one; and a path above
      a shipped one is never a file of the run. */
  lemma NoFileAbove(job: Job, journal: seq<Record>, created: seq<Path>, live: Tree, entry: Path, k: nat)
    requires Settled(job, journal, created, live) && job.temporary !in live.files
    requires entry in job.shipped && 0 < k < |entry|
    requires forall i | 0 <= i < |journal| :: journal[i].target in job.shipped
    ensures entry[..k] !in live.files && entry[..k] !in job.before.files
    ensures entry[..k] !in job.shipped && entry[..k] != MANIFEST && entry[..k] != job.temporary
    ensures !Protected(entry[..k])
    ensures entry[..k] != []
  {
    var d := entry[..k];
    assert job.Target(entry) && CodePath(entry) && d[0] == entry[0];
    assert entry[..1] != job.temporary;
    assert MANIFEST[0] in PROTECTED_ROOTS;
    assert !Journaled(journal, d);
    assert Same(live.files, job.before.files, d);
  }

  lemma DirectoryJoins(job: Job, live: Tree, created: seq<Path>, d: Path, inode: nat)
    requires DirectoriesKept(job, live.dirs, created) && AllDirectories(job, live.dirs, created)
    requires WellFormed(live) && d != [] && Parent(d) in live.dirs
    requires d !in live.dirs && NewDirectory(job, d)
    ensures DirectoriesKept(job, live.dirs[d := inode], created + [d])
    ensures AllDirectories(job, live.dirs[d := inode], created + [d])
  {
    hide Ancestor, NewDirectory;
    forall c | c in created ensures !(d <= c) {
      NotAbove(live, d, c);
    }
    var now := created + [d];
    forall i, j | 0 <= i < j < |now| ensures !(now[j] <= now[i]) {
      assert now[i] in created;
    }
    forall k | 0 < k < |d| ensures d[..k] in job.before.dirs || d[..k] in now {
      if k < |d| - 1 {
        PrefixesAreDirectories(live, Parent(d), k);
        assert Parent(d)[..k] == d[..k];
      } else {
        assert d[..k] == Parent(d);
      }
    }
    forall c, k | c in now && 0 < k < |c| ensures c[..k] in job.before.dirs || c[..k] in now {
      if c in created { assert c[..k] in job.before.dirs || c[..k] in created; }
    }
  }

  /** A new directory that no file of the run will take joins the created ones. */
  lemma DirectoryCreated(job: Job, journal: seq<Record>, live: Tree, created: seq<Path>, d: Path, inode: nat)
    requires Settled(job, journal, created, live) && AllDirectories(job, live.dirs, created)
    requires WellFormed(live) && d != [] && Parent(d) in live.dirs && !Exists(live, d)
    requires d !in job.before.files && d !in job.shipped && d != MANIFEST && d != job.temporary && !Protected(d)
    ensures Settled(job, journal, created + [d], Tree(live.files, live.dirs[d := inode]))
    ensures AllDirectories(job, live.dirs[d := inode], created + [d])
  {
    hide DirectoriesKept, Ancestor, Protected, Job.Admitted, Job.Accepts;
    DirectoryJoins(job, live, created, d, inode);
  }

  // ---- One target moved aside ----

  lemma AcceptsMore(job: Job, journal: seq<Record>, r: Record)
    requires job.Accepts(journal) && job.Target(r.target) && !Journaled(journal, r.target)
    requires r.target in job.before.files ==> r.backup == Some(job.Backup(r.target))
    requires r.target in job.stale ==> r.backup.Some?
    requires job.Stows(r) ==> job.StowsWell(journal, r)
    requires forall i | 0 <= i < |journal| :: job.Rank(journal[i].target) <= job.Rank(r.target)
    requires r.target in job.shipped ==> forall i | 0 <= i < |journal| :: journal[i].target in job.shipped
    requires forall p | p in job.stale :: p !in job.shipped
    ensures job.Accepts(journal + [r])
  {
    hide Job.Swept, Job.Crowded, Job.Rank, Job.Backup;
    var now := journal + [r];
    JournalGrows(journal, r);
    forall i | 0 <= i < |journal| ensures journal[i].target != r.target {
      assert Journaled(journal, journal[i].target);
    }
    forall i | 0 <= i < |now| && job.Stows(now[i]) ensures job.StowsWell(now, now[i]) {
      if i < |journal| {
        assert job.StowsWell(journal, journal[i]);
        SweptIsStale(job, journal[i].target);
      } else {
        SweptIsStale(job, r.target);
      }
    }
  }

  lemma SweptIsStale(job: Job, p: Path)
    requires job.Swept(p)
    ensures p in job.stale
  {
  }

  lemma ReadyAccepts(job: Job, journal: seq<Record>, live: Tree, target: Path)
    requires job.Admitted() && job.Accepts(journal) && Ready(job, journal, live, target)
    requires job.Swept(target) ==> !job.Crowded(target)
    ensures job.Accepts(journal + [MoveRecord(job, target)])
  {
    hide Job.Admitted, Job.Accepts, Job.Crowded, Job.AboveShipped, Job.UnderStale, Job.Backup, Job.Rank;
    StaleIsNotShipped(job);
    ManifestIsNeither(job);
    AcceptsMore(job, journal, MoveRecord(job, target));
  }

  lemma StaleIsNotShipped(job: Job)
    requires job.Admitted()
    ensures forall p | p in job.stale :: p !in job.shipped
  {
  }

  /** Moving one more file aside keeps the earlier records applied and applies the new one. */
  lemma OriginalMoved(job: Job, journal: seq<Record>, target: Path, files: map<Path, File>, undo: map<Path, File>)
    requires AllApplied(job, journal, files, undo) && !Journaled(journal, target)
    requires Same(files, job.before.files, target)
    ensures target in job.before.files ==>
      AllApplied(job, journal + [MoveRecord(job, target)], files - {target}, undo[job.Backup(target) := files[target]])
    ensures target !in job.before.files && !job.Swept(target) ==>
      AllApplied(job, journal + [MoveRecord(job, target)], files, undo)
  {
    hide Job.Swept, Job.UnderStale, Overwritten, Job.Backup;
    var r := MoveRecord(job, target);
    JournalGrows(journal, r);
    var now := journal + [r];
    forall i | 0 <= i < |journal| ensures journal[i].target != target {
      assert Journaled(journal, journal[i].target);
    }
    var files' := if target in job.before.files then files - {target} else files;
    var undo' := if target in job.before.files then undo[job.Backup(target) := files[target]] else undo;
    if target in job.before.files || !job.Swept(target) {
      forall i | 0 <= i < |now| ensures Applied(job, now, i, files', undo') {
        if i < |journal| { assert Applied(job, journal, i, files, undo); }
      }
    }
  }

  /** The same for a directory: the shipped files in it go with it, and no original's backup is disturbed. */
  lemma TreeMovedAside(job: Job, journal: seq<Record>, a: Path, files: map<Path, File>, undo: map<Path, File>,
                       now: map<Path, File>)
    requires job.Admitted() && job.Accepts(journal) && AllApplied(job, journal, files, undo) && !Journaled(journal, a)
    requires job.Swept(a) && !job.Crowded(a) && a !in files && job.Accepts(journal + [MoveRecord(job, a)])
    requires forall q :: q in undo && !(job.Backup(a) <= q) ==> Holds(now, q, undo[q])
    ensures AllApplied(job, journal + [MoveRecord(job, a)], Outside(files, a), now)
  {
    hide Job.Admitted, Job.Swept, Job.Crowded, Overwritten, Job.UnderStale, Job.StowsWell;
    var r := MoveRecord(job, a);
    var more, rest := journal + [r], Outside(files, a);
    JournalGrows(journal, r);
    SweptIsTarget(job, a);
    forall i | 0 <= i < |journal| && journal[i].target in job.before.files && journal[i].backup.Some?
      ensures Holds(now, journal[i].backup.value, undo[journal[i].backup.value])
    {
      TreeKeepsClear(job, a, journal[i].target);
    }
    forall i | 0 <= i < |journal| ensures Applied(job, more, i, rest, now) {
      assert Applied(job, journal, i, files, undo);
      assert Journaled(journal, journal[i].target);
      if a <= journal[i].target { SweptCovers(job, a, journal[i].target); }
    }
    assert Applied(job, more, |journal|, rest, now);
  }

  lemma SweptCovers(job: Job, a: Path, t: Path)
    requires job.Swept(a) && a != [] && a <= t && a != t
    ensures job.UnderStale(t)
  {
    BelowStale(job, a, t);
  }

  lemma UntouchedStill(job: Job, journal: seq<Record>, target: Path, files: map<Path, File>)
    requires Untouched(job, journal, files)
    ensures Untouched(job, journal + [MoveRecord(job, target)], files - {target})
    ensures Untouched(job, journal + [MoveRecord(job, target)], files)
  {
    JournalGrows(journal, MoveRecord(job, target));
  }

  /** moveForRollback of a file, and of nothing, on values. */
  lemma MoveKeeps(job: Job, journal: seq<Record>, created: seq<Path>, live: Tree, undo: Tree, target: Path)
    requires Settled(job, journal, created, live) && AllApplied(job, journal, live.files, undo.files)
    requires Ready(job, journal, live, target) && !job.Swept(target) && UndoKept(job, journal, created, undo)
    requires PrefixesThere(job.Backup(target), undo.dirs)
    ensures target != [] && (target in live.files <==> target in job.before.files)
    ensures target !in live.files ==> live.files - {target} == live.files
    ensures var now := journal + [MoveRecord(job, target)];
      if target in live.files then
        var files' := live.files - {target};
        var undo' := Tree(undo.files[job.Backup(target) := live.files[target]], undo.dirs);
        && Settled(job, now, created, Tree(files', live.dirs)) && AllApplied(job, now, files', undo'.files)
        && UndoKept(job, now, created, undo') && job.Safe(Snapshot(files', undo'.files))
      else
        && Settled(job, now, created, live) && AllApplied(job, now, live.files, undo.files)
        && UndoKept(job, now, created, undo)
  {
    hide Job.Admitted, Job.Accepts, DirectoriesKept, UndoKept, AllApplied, Job.Swept, Ready, Job.Safe;
    ReadyIsHandled(job, journal, live, target);
    HandledIsTarget(job, target);
    UntouchedTarget(job, journal, live, created, target);
    UntouchedStill(job, journal, target, live.files);
    OriginalMoved(job, journal, target, live.files, undo.files);
    ReadyAccepts(job, journal, live, target);
    if target in live.files {
      FileStored(job, journal, created, live, undo, target, live.files[target]);
      AppliedIsSafe(job, journal + [MoveRecord(job, target)],
        Snapshot(live.files - {target}, undo.files[job.Backup(target) := live.files[target]]));
    } else {
      NothingStored(job, journal, created, undo, target);
    }
  }

  /** What the run has put below a stale name: shipped files and directories it created. */
  lemma OwnTreeBelow(job: Job, journal: seq<Record>, created: seq<Path>, live: Tree, undo: map<Path, File>, a: Path)
    requires Settled(job, journal, created, live) && AllApplied(job, journal, live.files, undo)
    requires Ready(job, journal, live, a) && job.Swept(a)
    ensures OwnTree(job, live, created, a) && a !in live.files && a in live.dirs && a != []
  {
    hide Job.Accepts, Job.Crowded, Job.AboveShipped, Job.UnderStale, Overwritten;
    SweptIsTarget(job, a);
    UntouchedTarget(job, journal, live, created, a);
    forall p | p in live.files && a <= p ensures p in job.shipped && live.files[p] == job.shipped[p] && a < p {
      assert |a| == |p| ==> a == p;
      if p in job.before.files { StaleAboveOriginal(job, a, p); }
      assert p in job.shipped by {
        assert |MANIFEST| == 1 && |job.temporary| == 1 && |p| > |a| >= 1;
      }
      assert Journaled(journal, p);
      var i :| 0 <= i < |journal| && journal[i].target == p;
      assert Applied(job, journal, i, live.files, undo);
    }
    forall d | d in live.dirs && a <= d ensures d in created {
      if d in job.before.dirs { NotAbove(job.before, a, d); }
    }
  }

  /** moveForRollback of a directory at a stale name, on values. */
  lemma MoveTreeKeeps(job: Job, journal: seq<Record>, created: seq<Path>, live: Tree, undo: Tree, a: Path)
    requires Settled(job, journal, created, live) && AllApplied(job, journal, live.files, undo.files)
    requires Ready(job, journal, live, a) && job.Swept(a) && UndoKept(job, journal, created, undo)
    requires PrefixesThere(job.Backup(a), undo.dirs) && WellFormed(undo) && FreeForTree(undo, job.Backup(a))
    ensures var now := journal + [MoveRecord(job, a)];
      var live', undo' := PrunedAt(live, a), GraftedOnto(undo, live, a, job.Backup(a));
      && Settled(job, now, created, live') && AllApplied(job, now, live'.files, undo'.files)
      && UndoKept(job, now, created, undo') && job.Safe(Snapshot(live'.files, undo'.files))
      && a !in live'.dirs
  {
    hide Job.Admitted, Job.Accepts, DirectoriesKept, UndoKept, AllApplied, Job.Swept, Ready, Job.Safe, FreeForTree,
      GraftedOnto, WellFormed, Untouched, FilesKnown;
    var r, b := MoveRecord(job, a), job.Backup(a);
    var now := GraftedOnto(undo, live, a, b);
    OwnTreeBelow(job, journal, created, live, undo.files, a);
    ReadyIsHandled(job, journal, live, a);
    assert !job.Crowded(a) by { FreeAndReady(job, journal, created, live, undo, a); }
    ReadyAccepts(job, journal, live, a);
    TreeStored(job, journal, created, live, undo, a);
    OthersStay(undo, live, a, b);
    TreeMovedAside(job, journal, a, live.files, undo.files, now.files);
    ReadyIsDone(job, journal, live, a);
    PrunedSettledAt(job, journal, created, live, a);
    AppliedIsSafe(job, journal + [r], Snapshot(PrunedAt(live, a).files, now.files));
  }

  lemma ReadyIsDone(job: Job, journal: seq<Record>, live: Tree, a: Path)
    requires Ready(job, journal, live, a) && job.Swept(a)
    ensures AllShippedDone(job, journal)
  {
  }

  lemma FreeAndReady(job: Job, journal: seq<Record>, created: seq<Path>, live: Tree, undo: Tree, a: Path)
    requires job.Admitted() && job.Accepts(journal) && AllApplied(job, journal, live.files, undo.files)
    requires Ready(job, journal, live, a) && job.Swept(a) && UndoKept(job, journal, created, undo)
    requires WellFormed(undo) && FreeForTree(undo, job.Backup(a))
    ensures !job.Crowded(a)
  {
    FreeIsNotCrowded(job, journal, undo, a);
  }

  lemma OthersStay(undo: Tree, live: Tree, a: Path, b: Path)
    ensures forall q :: q in undo.files && !(b <= q) ==> Holds(GraftedOnto(undo, live, a, b).files, q, undo.files[q])
  {
    GraftedKeys(undo, live, a, b);
    forall q | q in undo.files && !(b <= q) ensures Holds(GraftedOnto(undo, live, a, b).files, q, undo.files[q]) {
      GraftedValues(undo, live, a, b, q);
    }
  }

  lemma PrunedSettledAt(job: Job, journal: seq<Record>, created: seq<Path>, live: Tree, a: Path)
    requires Settled(job, journal, created, live) && OwnTree(job, live, created, a)
    requires job.Accepts(journal + [MoveRecord(job, a)]) && AllShippedDone(job, journal)
    ensures Settled(job, journal + [MoveRecord(job, a)], created, PrunedAt(live, a))
  {
    hide Job.Admitted, Job.Accepts, Ancestor;
    JournalGrows(journal, MoveRecord(job, a));
    var now := PrunedAt(live, a);
    forall p | !Journaled(journal + [MoveRecord(job, a)], p) && p != job.temporary
      ensures Same(now.files, job.before.files, p)
    {
      assert Same(live.files, job.before.files, p);
    }
    forall d | d in job.before.dirs && !Ancestor(job.stale, d)
      ensures d in now.dirs && now.dirs[d] == job.before.dirs[d]
    {
      assert a <= d ==> d in created && NewDirectory(job, d);
    }
  }

  // ---- Publishing ----

  /** The last record of a journal, marked as published. */
  function Published(journal: seq<Record>): seq<Record>
    requires journal != []
  {
    journal[|journal| - 1 := journal[|journal| - 1].(published := true)]
  }

  lemma PublishedAlike(journal: seq<Record>)
    requires journal != []
    ensures forall p :: Journaled(Published(journal), p) <==> Journaled(journal, p)
    ensures forall i | 0 <= i < |journal| :: Overwritten(Published(journal), i) <==> Overwritten(journal, i)
    ensures forall i | 0 <= i < |journal| ::
      Published(journal)[i].target == journal[i].target && Published(journal)[i].backup == journal[i].backup
  {
    var now := Published(journal);
    forall p ensures Journaled(now, p) <==> Journaled(journal, p) {
      if Journaled(journal, p) {
        var i :| 0 <= i < |journal| && journal[i].target == p;
        assert now[i].target == p;
      }
    }
    forall i | 0 <= i < |journal| ensures Overwritten(now, i) <==> Overwritten(journal, i) {
      if Overwritten(journal, i) {
        var j :| i < j < |journal| && journal[j].backup == journal[i].backup;
        assert now[j].backup == now[i].backup;
      }
    }
  }

  lemma PublishedAccepted(job: Job, journal: seq<Record>)
    requires job.Accepts(journal) && journal != [] && !job.Stows(journal[|journal| - 1])
    ensures job.Accepts(Published(journal))
  {
    hide Job.Swept, Job.Crowded, Job.Backup, Job.Rank;
    var now := Published(journal);
    PublishedAlike(journal);
    forall i | 0 <= i < |now| && job.Stows(now[i]) ensures job.StowsWell(now, now[i]) {
      assert now[i] == journal[i] && job.StowsWell(journal, journal[i]);
    }
  }

  lemma PublishedApplied(job: Job, journal: seq<Record>, was: map<Path, File>, undo: map<Path, File>, files: map<Path,
                         File>)
    requires job.Accepts(journal) && AllApplied(job, journal, was, undo) && journal != [] && !job.Target(job.temporary)
    requires forall p | p != journal[|journal| - 1].target && p != job.temporary :: Same(files, was, p)
    requires var t := journal[|journal| - 1].target; t in files && (t in job.shipped ==> files[t] == job.shipped[t])
    ensures AllApplied(job, Published(journal), files, undo)
  {
    hide Job.UnderStale, Job.StowsWell, Overwritten;
    var last, now := |journal| - 1, Published(journal);
    PublishedAlike(journal);
    assert forall i | 0 <= i < last :: now[i] == journal[i];
    forall i | 0 <= i < |now| ensures Applied(job, now, i, files, undo) {
      assert Applied(job, journal, i, was, undo);
      assert i < last ==> Same(files, was, journal[i].target);
    }
  }

  /** Putting new content at the target of the last record, and only there (the temporary name aside). */
  lemma PublishKeeps(job: Job, journal: seq<Record>, created: seq<Path>, live: Tree, undo: Tree, files: map<Path, File>)
    requires Settled(job, journal, created, live) && AllApplied(job, journal, live.files, undo.files) && journal != []
    requires UndoKept(job, journal, created, undo)
    requires forall p | p != journal[|journal| - 1].target && p != job.temporary :: Same(files, live.files, p)
    requires var t := journal[|journal| - 1].target;
      t in files && (t in job.shipped || t == MANIFEST) && (t in job.shipped ==> files[t] == job.shipped[t])
    ensures Settled(job, Published(journal), created, Tree(files, live.dirs))
    ensures AllApplied(job, Published(journal), files, undo.files) && UndoKept(job, Published(journal), created, undo)
    ensures job.Safe(Snapshot(files, undo.files))
  {
    hide Applied, AllApplied, Overwritten, DirectoriesKept, UndoKept, Job.Accepts, Job.Admitted, Job.Safe;
    PublishedAlike(journal);
    LastIsNoDirectory(job, journal);
    PublishedAccepted(job, journal);
    assert !job.Target(job.temporary) by { TemporaryIsFree(job); }
    PublishedApplied(job, journal, live.files, undo.files, files);
    PublishedNames(job, journal, Published(journal), created, undo);
    assert Journaled(journal, journal[|journal| - 1].target);
    forall p | !Journaled(Published(journal), p) && p != job.temporary ensures Same(files, job.before.files, p) {
      assert Same(live.files, job.before.files, p) && Same(files, live.files, p);
    }
    forall p | p in files ensures p in live.files || p == journal[|journal| - 1].target || p == job.temporary {
      if p != journal[|journal| - 1].target && p != job.temporary { assert Same(files, live.files, p); }
    }
    AppliedIsSafe(job, Published(journal), Snapshot(files, undo.files));
  }

  lemma TemporaryIsFree(job: Job)
    requires job.Admitted()
    ensures !job.Target(job.temporary) && !Exists(job.before, job.temporary)
  {
  }

  lemma LastIsNoDirectory(job: Job, journal: seq<Record>)
    requires job.Admitted() && job.Accepts(journal) && journal != []
    requires journal[|journal| - 1].target in job.shipped || journal[|journal| - 1].target == MANIFEST
    ensures !job.Stows(journal[|journal| - 1])
  {
    hide Job.Admitted, Job.Accepts, Job.AboveShipped, Job.UnderStale, Job.Crowded;
    if job.Stows(journal[|journal| - 1]) {
      RecordNames(job, journal, |journal| - 1);
      SweptIsTarget(job, journal[|journal| - 1].target);
    }
  }

  /** The temporary manifest is nobody's target. */
  lemma TemporaryChanged(job: Job, journal: seq<Record>, created: seq<Path>, live: Tree, undo: map<Path, File>,
                         files: map<Path, File>)
    requires Settled(job, journal, created, live) && AllApplied(job, journal, live.files, undo)
    requires forall p | p != job.temporary :: Same(files, live.files, p)
    ensures Settled(job, journal, created, Tree(files, live.dirs))
    ensures AllApplied(job, journal, files, undo)
    ensures job.Safe(Snapshot(files, undo))
  {
    hide Job.Admitted, Job.Safe, Job.StowsWell, Overwritten, DirectoriesKept, Job.UnderStale;
    TemporaryIsFree(job);
    forall i | 0 <= i < |journal| ensures Applied(job, journal, i, files, undo) {
      assert Applied(job, journal, i, live.files, undo);
      assert Same(files, live.files, journal[i].target);
    }
    forall p | !Journaled(journal, p) && p != job.temporary ensures Same(files, job.before.files, p) {
      assert Same(live.files, job.before.files, p) && Same(files, live.files, p);
    }
    forall p | p in files ensures p in live.files || p == job.temporary {
      if p != job.temporary { assert Same(files, live.files, p); }
    }
    AppliedIsSafe(job, journal, Snapshot(files, undo));
  }

  lemma SafeExtended(job: Job, trace: seq<Snapshot>, start: nat, s: Snapshot)
    requires SafeSince(job, trace, start) && job.Safe(s)
    ensures SafeSince(job, trace + [s], start)
  {
  }

  /** The publishing list names each shipped file once. */
  lemma ListsShipped(job: Job, journal: seq<Record>, created: seq<Path>, live: Tree)
    requires Settled(job, journal, created, live)
    ensures NoRepeats(job.current)
    ensures forall k | 0 <= k < |job.current| :: job.current[k] in job.shipped
    ensures forall p | p in job.shipped :: p != [] && p != job.temporary && p in job.current
  {
    forall p | p in job.shipped ensures p != [] && p != job.temporary {
      assert job.Target(p) && CodePath(p);
    }
  }

  /** A shipped entry that is not journaled yet is ready to be moved aside. */
  lemma ShippedIsReady(job: Job, journal: seq<Record>, created: seq<Path>, live: Tree, entry: Path)
    requires Settled(job, journal, created, live) && entry in job.shipped && !Journaled(journal, entry)
    requires forall i | 0 <= i < |journal| :: journal[i].target in job.shipped
    ensures Ready(job, journal, live, entry) && !job.Swept(entry) && job.Backup(entry) == entry
  {
    hide Job.Accepts, DirectoriesKept;
    UntouchedTarget(job, journal, live, created, entry);
    StaleIsNotShipped(job);
  }

  /** Right after publishing, everything shipped is there, and so are all created directories. */
  ghost predicate AllThere(job: Job, created: seq<Path>, live: Tree) {
    && (forall p | p in job.shipped :: p in live.files)
    && (forall c | c in created :: c in live.dirs)
  }

  // ---- The stale step ----

  /** After the first n stale names: none of them is there, and of the created directories only those at or
      below them have gone. */
  ghost predicate SweptUpTo(job: Job, created: seq<Path>, live: Tree, n: nat)
    requires n <= |job.stale|
  {
    && (forall j | 0 <= j < n :: !Exists(live, job.stale[j]))
    && (forall c | c in created :: c in live.dirs || exists j :: 0 <= j < n && job.stale[j] <= c)
    && (forall p | p in job.shipped :: p in live.files || exists j :: 0 <= j < n && job.stale[j] < p)
  }

  lemma SweepStarts(job: Job, created: seq<Path>, live: Tree)
    requires AllThere(job, created, live)
    ensures SweptUpTo(job, created, live, 0)
  {
  }

  /** The next stale name is a directory exactly if it lies above something shipped and under no other. */
  lemma StaleFound(job: Job, journal: seq<Record>, created: seq<Path>, live: Tree, n: nat)
    requires Settled(job, journal, created, live) && WellFormed(live) && n < |job.stale|
    requires SweptUpTo(job, created, live, n)
    requires !Journaled(journal, job.stale[n]) && CreatedAbove(job, created)
    ensures job.stale[n] in live.dirs <==> job.Swept(job.stale[n])
    ensures Exists(live, job.stale[n]) <==> job.Handled(job.stale[n])
  {
    hide Job.Accepts, Job.Crowded;
    var s := job.stale[n];
    assert s in job.stale && job.Target(s);
    ManifestIsNeither(job);
    UntouchedTarget(job, journal, live, created, s);
    if s in live.dirs {
      DirectoryIsFound(job, journal, created, live, n);
    }
    if job.Swept(s) {
      FoundIsDirectory(job, journal, created, live, n);
    }
  }

  lemma DirectoryIsFound(job: Job, journal: seq<Record>, created: seq<Path>, live: Tree, n: nat)
    requires Settled(job, journal, created, live) && WellFormed(live) && n < |job.stale|
    requires SweptUpTo(job, created, live, n)
    requires job.stale[n] in live.dirs && CreatedAbove(job, created)
    ensures job.Swept(job.stale[n])
  {
    hide Job.Accepts, Job.Crowded, WellFormed, Untouched, FilesKnown;
    var s := job.stale[n];
    StaleIsCreated(job, journal, created, live, s);
    var i :| 0 <= i < |job.current| && s < job.current[i];
    assert job.current[i] in job.shipped by { ListsShipped(job, journal, created, live); }
    forall k | 0 < k < |s| && s[..k] in job.stale ensures false {
      var j :| 0 <= j < |job.stale| && job.stale[j] == s[..k];
      EarlierStale(job, j, n);
      PrefixesAreDirectories(live, s, k);
    }
  }

  lemma StaleIsCreated(job: Job, journal: seq<Record>, created: seq<Path>, live: Tree, s: Path)
    requires Settled(job, journal, created, live) && s in job.stale && s in live.dirs
    ensures s in created && s !in job.before.files
  {
    hide Job.Accepts;
    assert job.Target(s);
    assert s in created ==> NewDirectory(job, s);
  }

  /** A stale name that lies above another one comes before it. */
  lemma EarlierStale(job: Job, j: nat, n: nat)
    requires job.Admitted() && j < |job.stale| && n < |job.stale| && job.stale[j] < job.stale[n]
    ensures j < n
  {
  }

  lemma StaleNotAbove(job: Job, j: nat, n: nat)
    requires job.Admitted() && j < n < |job.stale| && job.Swept(job.stale[n])
    ensures !(job.stale[j] <= job.stale[n]) && !(job.stale[n] <= job.stale[j])
  {
    hide Job.AboveShipped;
    var a, s := job.stale[j], job.stale[n];
    assert a in job.stale && CodePath(a) && a != s;
    if a <= s { BelowStale(job, a, s); }
    assert s <= a ==> s < a by { ProperPrefix(s, a); }
  }

  lemma ProperPrefix(a: Path, b: Path)
    requires a != b
    ensures a <= b ==> a < b
  {
    assert a <= b && |a| == |b| ==> a == b;
  }

  lemma FoundIsDirectory(job: Job, journal: seq<Record>, created: seq<Path>, live: Tree, n: nat)
    requires Settled(job, journal, created, live) && WellFormed(live) && n < |job.stale|
    requires SweptUpTo(job, created, live, n)
    requires job.Swept(job.stale[n])
    ensures job.stale[n] in live.dirs
  {
    var s := job.stale[n];
    var p :| p in job.shipped && s < p;
    if p in live.files {
      assert p[..|s|] == s;
      PrefixesAreDirectories(live, p, |s|);
    } else {
      var j :| 0 <= j < n && job.stale[j] < p;
      Comparable(job.stale[j], s, p);
      StaleNotAbove(job, j, n);
    }
  }

  /** A stale name that is on disk is ready to be moved aside. */
  lemma StaleIsReady(job: Job, journal: seq<Record>, live: Tree, s: Path)
    requires job.Admitted() && s in job.stale && !Journaled(journal, s) && job.Handled(s)
    requires s in live.dirs <==> job.Swept(s)
    requires AllShippedDone(job, journal) && forall i | 0 <= i < |journal| :: journal[i].target != MANIFEST
    ensures Ready(job, journal, live, s) && job.Backup(s) == ["stale"] + s && job.Backup(s) != []
  {
    ManifestIsNeither(job);
  }

  lemma SweptOneMore(job: Job, created: seq<Path>, was: Tree, now: Tree, n: nat)
    requires n < |job.stale| && SweptUpTo(job, created, was, n) && !Exists(now, job.stale[n])
    requires forall p | p in now.files :: p in was.files
    requires forall d | d in now.dirs :: d in was.dirs
    requires forall p | p in was.files :: p in now.files || job.stale[n] <= p
    requires forall d | d in was.dirs :: d in now.dirs || job.stale[n] <= d
    requires forall p | p in job.stale :: p !in job.shipped
    ensures SweptUpTo(job, created, now, n + 1)
  {
    forall p | p in job.shipped ensures p in now.files || exists j :: 0 <= j < n + 1 && job.stale[j] < p {
      if p !in now.files {
        if p in was.files {
          assert job.stale[n] in job.stale && job.stale[n] != p;
          ProperPrefix(job.stale[n], p);
        } else {
          var j :| 0 <= j < n && job.stale[j] < p;
        }
      }
    }
    forall c | c in created ensures c in now.dirs || exists j :: 0 <= j < n + 1 && job.stale[j] <= c {
      if c !in now.dirs {
        if c !in was.dirs { var j :| 0 <= j < n && job.stale[j] <= c; }
      }
    }
  }

  /** After the stale step: no stale name is there, and a shipped file is there exactly if it lies under none. */
  lemma SweptAll(job: Job, created: seq<Path>, live: Tree)
    requires job.Admitted() && WellFormed(live) && SweptUpTo(job, created, live, |job.stale|)
    ensures forall p | p in job.stale :: !Exists(live, p)
    ensures forall p | p in job.shipped :: p in live.files <==> !job.UnderStale(p)
  {
    forall p | p in job.stale ensures !Exists(live, p) {
      var j :| 0 <= j < |job.stale| && job.stale[j] == p;
    }
    forall p | p in job.shipped ensures p in live.files <==> !job.UnderStale(p) {
      if p in live.files {
        forall k | 0 < k < |p| ensures p[..k] !in job.stale { PrefixesAreDirectories(live, p, k); }
      } else {
        var j :| 0 <= j < |job.stale| && job.stale[j] < p;
        assert job.stale[j] in job.stale && CodePath(job.stale[j]);
        BelowStale(job, job.stale[j], p);
      }
    }
  }

  /** Only shipped and stale files are journaled: the shipped ones first and published, then stale ones. */
  ghost predicate BeforeManifest(job: Job, journal: seq<Record>) {
    && |job.current| <= |journal|
    && (forall k | 0 <= k < |job.current| :: journal[k].target == job.current[k] && journal[k].published)
    && (forall k | |job.current| <= k < |journal| :: journal[k].target in job.stale)
  }

  lemma ShippedAreDone(job: Job, journal: seq<Record>)
    requires job.Admitted() && BeforeManifest(job, journal)
    ensures AllShippedDone(job, journal) && forall i | 0 <= i < |journal| :: journal[i].target != MANIFEST
  {
    ManifestIsNeither(job);
    forall p | p in job.shipped ensures Journaled(journal, p) {
      assert p in job.current;
      var k :| 0 <= k < |job.current| && job.current[k] == p;
      assert journal[k].target == p;
    }
    forall k | 0 <= k < |job.current| ensures job.current[k] != MANIFEST { assert job.current[k] in job.current; }
  }

  // ---- The manifest ----

  lemma ManifestIsReady(job: Job, journal: seq<Record>, created: seq<Path>, live: Tree)
    requires Settled(job, journal, created, live) && BeforeManifest(job, journal)
    ensures Ready(job, journal, live, MANIFEST) && !job.Swept(MANIFEST)
    ensures job.Backup(MANIFEST) == ["manifest", "previous.json"]
  {
    hide Job.Accepts, DirectoriesKept;
    ManifestIsNeither(job);
    ShippedAreDone(job, journal);
    assert !Journaled(journal, MANIFEST);
    UntouchedTarget(job, journal, live, created, MANIFEST);
  }

  lemma TemporaryNames(job: Job, journal: seq<Record>, created: seq<Path>, live: Tree)
    requires Settled(job, journal, created, live)
    ensures MANIFEST != job.temporary && job.temporary != [] && Parent(job.temporary) == []
    ensures job.temporary !in live.dirs && MANIFEST !in live.dirs && MANIFEST != [] && Parent(MANIFEST) == []
  {
    assert job.Target(MANIFEST);
    assert forall c | c in created :: NewDirectory(job, c);
  }

  // ---- After the manifest ----

  ghost predicate CreatedAbove(job: Job, created: seq<Path>) {
    forall c | c in created :: Ancestor(job.current, c)
  }

  lemma AboveIsAncestor(job: Job, journal: seq<Record>, created: seq<Path>, live: Tree, entry: Path, k: nat)
    requires Settled(job, journal, created, live) && entry in job.shipped && 0 < k < |entry|
    ensures Ancestor(job.current, entry[..k])
  {
    assert entry in job.current;
    assert entry[..k] < entry;
  }

  /** Nothing under a protected root is ever touched, directory identities included. */
  lemma ProtectedUntouched(job: Job, journal: seq<Record>, created: seq<Path>, live: Tree, p: Path)
    requires Settled(job, journal, created, live) && Protected(p)
    ensures Same(live.files, job.before.files, p) && Same(live.dirs, job.before.dirs, p)
  {
    assert !job.Target(p) && p != job.temporary;
    assert !Journaled(journal, p);
    assert p in created ==> NewDirectory(job, p);
    forall i | 0 <= i < |job.stale| ensures !(p < job.stale[i]) {
      assert job.stale[i] in job.stale && CodePath(job.stale[i]);
    }
  }

  lemma PersistentUntouched(job: Job, journal: seq<Record>, created: seq<Path>, live: Tree)
    requires Settled(job, journal, created, live)
    ensures Identities(live) == Identities(job.before) && Identities(live).Some?
  {
    ProtectedUntouched(job, journal, created, live, [".env"]);
    ProtectedUntouched(job, journal, created, live, [".env.runtime"]);
    ProtectedUntouched(job, journal, created, live, ["runtime"]);
    ProtectedUntouched(job, journal, created, live, ["runtime", "m4"]);
    ProtectedUntouched(job, journal, created, live, ["var", "agent-memory-fabric"]);
  }

  /** The directories that the clean-up removes all lie above stale entries. */
  lemma PrunedSettled(job: Job, journal: seq<Record>, created: seq<Path>, was: Tree, now: Tree)
    requires Settled(job, journal, created, was) && EmptyParents.Pruned(was, now, job.stale)
    ensures Settled(job, journal, created, now) && now.files == was.files
  {
  }

  /** After the manifest has been published, the files are those of a successful installation. */
  lemma FilesInstalled(job: Job, journal: seq<Record>, created: seq<Path>, live: Tree, undo: map<Path, File>)
    requires Settled(job, journal, created, live) && AllApplied(job, journal, live.files, undo)
    requires journal != [] && BeforeManifest(job, journal[..|journal| - 1]) && journal[|journal| - 1].target == MANIFEST
    requires job.temporary !in live.files && forall p | p in job.stale :: p !in live.files
    requires forall p | p in job.shipped :: p in live.files <==> !job.UnderStale(p)
    ensures forall p | p != MANIFEST :: Same(live.files, job.Installed(), p)
  {
    hide Job.Accepts, DirectoriesKept, Job.UnderStale, Overwritten;
    ManifestIsNeither(job);
    var last := |journal| - 1;
    assert forall i | 0 <= i < last :: journal[..last][i] == journal[i];
    forall p | p != MANIFEST ensures Same(live.files, job.Installed(), p) {
      if p in job.shipped {
        ShippedIsPublished(job, journal[..last], p);
        var k :| 0 <= k < last && journal[..last][k].target == p && journal[..last][k].published;
        ShippedInstalled(job, journal, k, live.files, undo);
      } else if p !in job.stale && p != job.temporary {
        assert Same(live.files, job.before.files, p);
      }
    }
  }

  lemma ShippedInstalled(job: Job, journal: seq<Record>, k: nat, files: map<Path, File>, undo: map<Path, File>)
    requires job.Admitted() && AllApplied(job, journal, files, undo) && k < |journal| && journal[k].published
    requires journal[k].target in job.shipped
    requires journal[k].target in files <==> !job.UnderStale(journal[k].target)
    ensures Same(files, job.Installed(), journal[k].target)
  {
    hide Job.Admitted, Job.UnderStale, Overwritten;
    ShippedIsNew(job, journal[k].target);
    assert Applied(job, journal, k, files, undo);
  }

  lemma ShippedIsPublished(job: Job, journal: seq<Record>, p: Path)
    requires job.Admitted() && BeforeManifest(job, journal) && p in job.shipped
    ensures exists k :: 0 <= k < |journal| && journal[k].target == p && journal[k].published
  {
    assert p in job.current;
    var k :| 0 <= k < |job.current| && job.current[k] == p;
    assert journal[k].target == p && journal[k].published;
  }

  /** A shipped path under a stale name has no original. */
  lemma ShippedIsNew(job: Job, p: Path)
    requires job.Admitted() && p in job.shipped
    ensures job.UnderStale(p) ==> p !in job.before.files
  {
    if job.UnderStale(p) && p in job.before.files {
      var k :| 0 < k < |p| && p[..k] in job.stale;
      PrefixesAreDirectories(job.before, p, k);
      assert job.Target(p[..k]);
    }
  }

  /** By then everything that moveForRollback had to handle has been journaled. */
  lemma JournalComplete(job: Job, journal: seq<Record>)
    requires job.Admitted() && journal != [] && BeforeManifest(job, journal[..|journal| - 1])
    requires journal[|journal| - 1].target == MANIFEST
    requires forall s | s in job.stale && job.Handled(s) :: Journaled(journal[..|journal| - 1], s)
    ensures job.Complete(journal) && forall q | job.Handled(q) :: Journaled(journal, q)
  {
    hide Job.Swept;
    var last := |journal| - 1;
    ShippedAreDone(job, journal[..last]);
    assert forall i | 0 <= i < last :: journal[..last][i] == journal[i];
    forall p | Journaled(journal[..last], p) ensures Journaled(journal, p) {
      var i :| 0 <= i < last && journal[..last][i].target == p;
      assert journal[i].target == p;
    }
    assert journal[last].target == MANIFEST;
    forall q | job.Handled(q) ensures Journaled(journal, q) {}
    forall p | job.Target(p) && p in job.before.files ensures Journaled(journal, p) { assert job.Handled(p); }
  }

  /** A file in the place of a directory above a stale entry has been shipped. */
  lemma BlockedByShipped(job: Job, journal: seq<Record>, created: seq<Path>, live: Tree, d: Path)
    requires Settled(job, journal, created, live) && job.temporary !in live.files
    requires forall p | p in job.shipped :: p in live.files <==> !job.UnderStale(p)
    requires Ancestor(job.stale, d) && d in live.files
    ensures job.Blocked()
  {
    hide Job.Accepts, DirectoriesKept, Job.UnderStale;
    var i :| 0 <= i < |job.stale| && d < job.stale[i];
    var s := job.stale[i];
    assert s in job.stale && CodePath(s) && d[0] == s[0] && job.Target(s);
    assert d == s[..|d|];
    assert s[..|d|] !in job.before.files;
    assert d != MANIFEST;
    assert d in job.shipped;
  }

  /** If no ancestor of a stale entry is a file, nothing blocks the clean-up. */
  lemma NotBlocked(job: Job, live: Tree)
    requires forall p | p in job.shipped :: p in live.files <==> !job.UnderStale(p)
    requires forall d | Ancestor(job.stale, d) :: d !in live.files
    ensures !job.Blocked()
  {
  }

  lemma DirectoriesInstalled(job: Job, journal: seq<Record>, created: seq<Path>, live: Tree)
    requires Settled(job, journal, created, live) && CreatedAbove(job, created)
    ensures forall d | d in live.dirs :: d in job.before.dirs || Ancestor(job.current, d)
    ensures forall d | d in job.before.dirs && !Ancestor(job.stale, d) ::
      d in live.dirs && live.dirs[d] == job.before.dirs[d]
  {
  }

  lemma DirectoriesRestored(job: Job, journal: seq<Record>, created: seq<Path>, live: Tree)
    requires Settled(job, journal, created, live)
    requires forall k | 0 <= k < |created| :: created[k] !in live.dirs
    ensures forall d | d in live.dirs :: d in job.before.dirs
    ensures forall d | d in job.before.dirs && !Ancestor(job.stale, d) ::
      d in live.dirs && live.dirs[d] == job.before.dirs[d]
  {
  }

  lemma SettledAccepts(job: Job, journal: seq<Record>, created: seq<Path>, live: Tree)
    requires Settled(job, journal, created, live)
    ensures job.Admitted() && job.Accepts(journal)
  {
  }
}
