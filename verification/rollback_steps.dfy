/** The pure steps of the rollback. */
module RollbackSteps {
  import opened Wrappers
  import opened Paths
  import opened FileSystem
  import opened ReleaseSpec

  /** Holding every journaled original is enough to be safe. */
  lemma HeldIsSafe(job: Job, journal: seq<Record>, s: Snapshot)
    requires job.Accepts(journal) && !job.Target(job.temporary) && Untouched(job, journal, s.live)
    requires forall i | 0 <= i < |journal| :: Held(job, journal, i, s.live, s.undo)
    ensures job.Safe(s)
  {
    hide Overwritten;
    forall p | !job.Target(p) && p != job.temporary ensures Same(s.live, job.before.files, p) {
      assert !Journaled(journal, p);
    }
    forall p | job.Target(p) && p in job.before.files && job.Unique(p)
      ensures Holds(s.live, p, job.before.files[p]) || Holds(s.undo, job.Backup(p), job.before.files[p])
    {
      OneIsHeld(job, journal, s, p);
    }
    forall p | p in job.shipped && job.Unique(p) && p in s.live
      ensures s.live[p] == job.shipped[p] || Holds(job.before.files, p, s.live[p])
    {
      OneIsHeld(job, journal, s, p);
    }
  }

  lemma OneIsHeld(job: Job, journal: seq<Record>, s: Snapshot, p: Path)
    requires job.Target(p) && job.Unique(p) && p != job.temporary && Untouched(job, journal, s.live)
    requires forall i | 0 <= i < |journal| :: Held(job, journal, i, s.live, s.undo)
    ensures p in job.before.files ==>
      Holds(s.live, p, job.before.files[p]) || Holds(s.undo, job.Backup(p), job.before.files[p])
    ensures p in job.shipped && p in s.live ==> s.live[p] == job.shipped[p] || Holds(job.before.files, p, s.live[p])
  {
    hide Overwritten;
    if Journaled(journal, p) {
      var i :| 0 <= i < |journal| && journal[i].target == p;
      assert Held(job, journal, i, s.live, s.undo);
    } else {
      assert Same(s.live, job.before.files, p);
    }
  }

  lemma AppliedIsHeld(job: Job, journal: seq<Record>, i: nat, files: map<Path, File>, undo: map<Path, File>)
    requires i < |journal| && job.Admitted() && job.Accepts(journal) && Applied(job, journal, i, files, undo)
    ensures Held(job, journal, i, files, undo)
  {
    hide Job.Admitted, Job.StowsWell, Overwritten;
    var t := journal[i].target;
    if job.Unique(t) && t in job.before.files { UniqueStays(job, journal, i); }
  }

  /** With every journaled record applied, the disk is safe. */
  lemma AppliedIsSafe(job: Job, journal: seq<Record>, s: Snapshot)
    requires job.Admitted() && job.Accepts(journal) && Untouched(job, journal, s.live)
    requires AllApplied(job, journal, s.live, s.undo)
    ensures job.Safe(s)
  {
    hide Applied, Held, Overwritten;
    forall i | 0 <= i < |journal| ensures Held(job, journal, i, s.live, s.undo) {
      AppliedIsHeld(job, journal, i, s.live, s.undo);
    }
    HeldIsSafe(job, journal, s);
  }

  lemma UndoingIsSafe(job: Job, journal: seq<Record>, k: nat, clean: bool, created: seq<Path>, live: Tree,
                      undo: map<Path, File>)
    requires k <= |journal| && Settled(job, journal, created, live) && Undoing(job, journal, k, clean, live.files, undo)
    ensures job.Safe(Snapshot(live.files, undo))
  {
    hide Applied, Held, Overwritten, DirectoriesKept;
    forall i | 0 <= i < |journal| ensures Held(job, journal, i, live.files, undo) {
      if i < k { AppliedIsHeld(job, journal, i, live.files, undo); }
    }
    HeldIsSafe(job, journal, Snapshot(live.files, undo));
  }

  /** Removing what was published for record k. */
  lemma Unpublished(job: Job, journal: seq<Record>, k: nat, clean: bool, files: map<Path, File>, undo: map<Path, File>)
    requires k < |journal| && job.Admitted() && job.Accepts(journal) && Undoing(job, journal, k + 1, clean, files, undo)
    ensures Undoing(job, journal, k, false, files, undo)
    ensures Undoing(job, journal, k, false, files - {journal[k].target}, undo)
  {
    hide Job.Admitted, Job.StowsWell, Overwritten;
    var t := journal[k].target;
    AppliedIsHeld(job, journal, k, files, undo);
    assert Applied(job, journal, k, files, undo);
    if t in job.before.files && job.Unique(t) { UniqueStays(job, journal, k); }
    forall i | k <= i < |journal| ensures Held(job, journal, i, files - {t}, undo) {
      if i > k { assert Held(job, journal, i, files, undo) && journal[i].target != t; }
    }
    forall i | 0 <= i < k ensures Applied(job, journal, i, files - {t}, undo) {
      assert Applied(job, journal, i, files, undo);
    }
  }

  /** Nothing to move back: the record had no original, or its backup has been used up by a later one. */
  lemma NothingToRestore(job: Job, journal: seq<Record>, k: nat, clean: bool, files: map<Path, File>, undo: map<Path,
                         File>)
    requires k < |journal| && job.Admitted() && job.Accepts(journal) && Undoing(job, journal, k + 1, clean, files, undo)
    requires journal[k].backup.Some? ==> journal[k].backup.value !in undo
    ensures Undoing(job, journal, k, clean, files - {journal[k].target}, undo)
  {
    hide Job.Admitted, Job.StowsWell, Overwritten;
    var t := journal[k].target;
    Unpublished(job, journal, k, clean, files, undo);
    assert Applied(job, journal, k, files, undo);
    if clean {
      forall i | k <= i < |journal| ensures Reverted(job, journal, i, files - {t}, undo) {
        if i > k { assert Reverted(job, journal, i, files, undo); }
      }
    }
  }

  /** While all later records have been undone cleanly, a backup that is still there is the record's own. */
  lemma UnusedBackup(job: Job, journal: seq<Record>, k: nat, files: map<Path, File>, undo: map<Path, File>)
    requires k < |journal| && journal[k].backup.Some? && journal[k].backup.value in undo
    requires forall i | k < i < |journal| :: Reverted(job, journal, i, files, undo)
    ensures !Overwritten(journal, k)
  {
    forall j | k < j < |journal| ensures journal[j].backup != journal[k].backup {
      assert Reverted(job, journal, j, files, undo);
    }
  }

  /** The original of record k goes back to its target. */
  lemma MovedBack(job: Job, journal: seq<Record>, k: nat, clean: bool, files: map<Path, File>, undo: map<Path, File>,
                  now: map<Path, File>)
    requires k < |journal| && job.Admitted() && job.Accepts(journal) && Undoing(job, journal, k + 1, clean, files, undo)
    requires journal[k].backup.Some? && journal[k].backup.value in undo && journal[k].target in job.before.files
    requires forall p | p != journal[k].target :: Same(now, files, p)
    requires Holds(now, journal[k].target, undo[journal[k].backup.value])
    ensures Undoing(job, journal, k, clean, now, undo - {journal[k].backup.value})
  {
    hide Job.Admitted, Job.StowsWell;
    var t, b := journal[k].target, journal[k].backup.value;
    assert Applied(job, journal, k, files, undo);
    forall i | 0 <= i < k ensures Applied(job, journal, i, now, undo - {b}) {
      assert Applied(job, journal, i, files, undo);
      assert Same(now, files, journal[i].target);
      if journal[i].backup == Some(b) { assert Overwritten(journal, i); }
    }
    forall i | k <= i < |journal| ensures Held(job, journal, i, now, undo - {b}) {
      if i > k {
        assert Held(job, journal, i, files, undo);
        assert Same(now, files, journal[i].target);
      } else if job.Unique(t) {
        UniqueStays(job, journal, k);
      }
    }
    if clean {
      UnusedBackup(job, journal, k, files, undo);
      forall i | k <= i < |journal| ensures Reverted(job, journal, i, now, undo - {b}) {
        if i > k {
          assert Reverted(job, journal, i, files, undo);
          assert Same(now, files, journal[i].target);
        }
      }
    }
  }

  /** The directory of record k goes back to its target. The files in it are shipped ones, whose records
      come earlier; no original's backup was among them. */
  lemma TreeMovedBack(job: Job, journal: seq<Record>, k: nat, clean: bool, files: map<Path, File>, undo: map<Path,
                      File>,
                      now: map<Path, File>, left: map<Path, File>)
    requires k < |journal| && job.Admitted() && job.Accepts(journal) && Undoing(job, journal, k + 1, clean, files, undo)
    requires job.Stows(journal[k]) && journal[k].backup.value !in undo
    requires forall p | p in now :: Holds(files, p, now[p]) || (Holds(job.shipped, p, now[p]) && journal[k].target < p)
    requires forall p | p in files :: Holds(now, p, files[p]) || (p in job.shipped && Holds(now, p, job.shipped[p]))
    requires left == Outside(undo, journal[k].backup.value)
    ensures Undoing(job, journal, k, clean, now, left)
  {
    hide Overwritten, Job.Admitted, Job.Accepts, Job.UnderStale;
    var a, b := journal[k].target, journal[k].backup.value;
    StowedIsPublished(job, journal, k, k);
    forall i | 0 <= i < |journal| && journal[i].target in job.before.files
      ensures !(b <= job.Backup(journal[i].target)) && journal[i].backup == Some(job.Backup(journal[i].target))
    {
      StowedKeepsClear(job, journal, k, i);
    }
    assert Applied(job, journal, k, files, undo);
    forall i | k <= i < |journal| ensures journal[i].target !in job.shipped && Same(now, files, journal[i].target) {
      LaterIsNotShipped(job, journal, k, i);
    }
    forall i | 0 <= i < k ensures Applied(job, journal, i, now, left) {
      assert Applied(job, journal, i, files, undo);
      StowedIsPublished(job, journal, k, i);
    }
    forall i | k <= i < |journal| ensures Held(job, journal, i, now, left) {
      if i > k { assert Held(job, journal, i, files, undo); } else { assert a !in job.before.files; }
    }
    if clean {
      forall i | k <= i < |journal| ensures Reverted(job, journal, i, now, left) {
        if i > k { assert Reverted(job, journal, i, files, undo); }
      }
    }
  }

  lemma StowedKeepsClear(job: Job, journal: seq<Record>, k: nat, i: nat)
    requires k < |journal| && i < |journal| && job.Admitted() && job.Accepts(journal) && job.Stows(journal[k])
    requires journal[i].target in job.before.files
    ensures !(journal[k].backup.value <= job.Backup(journal[i].target))
    ensures journal[i].backup == Some(job.Backup(journal[i].target))
  {
    RecordNames(job, journal, k);
    TreeKeepsClear(job, journal[k].target, journal[i].target);
  }

  lemma LaterIsNotShipped(job: Job, journal: seq<Record>, k: nat, i: nat)
    requires k <= i < |journal| && job.Admitted() && job.Accepts(journal) && job.Stows(journal[k])
    ensures journal[i].target !in job.shipped
  {
    hide Job.Admitted;
    RecordNames(job, journal, k);
    assert job.Rank(journal[k].target) <= job.Rank(journal[i].target);
  }

  lemma StowedIsPublished(job: Job, journal: seq<Record>, k: nat, i: nat)
    requires k < |journal| && i < |journal| && job.Accepts(journal) && job.Stows(journal[k])
    ensures journal[i].target in job.shipped ==> journal[i].published
    ensures !journal[k].published
    ensures forall p | p in job.shipped :: Journaled(journal, p)
  {
    assert job.StowsWell(journal, journal[k]);
  }

  /** A record not yet undone has its target as the record says: a published one is no directory, an
      unpublished one no file. */
  lemma TargetInPlace(job: Job, journal: seq<Record>, created: seq<Path>, live: Tree, undo: map<Path, File>, k: nat,
                      clean: bool)
    requires k < |journal| && Settled(job, journal, created, live)
    requires Undoing(job, journal, k + 1, clean, live.files, undo)
    ensures journal[k].target != [] && journal[k].target != job.temporary
    ensures if journal[k].published then journal[k].target !in live.dirs else journal[k].target !in live.files
  {
    hide Ancestor, Job.UnderStale, Job.Swept, Job.Crowded, Overwritten;
    var t := journal[k].target;
    assert job.Target(t);
    assert Applied(job, journal, k, live.files, undo);
    if journal[k].published {
      if t !in job.before.files && job.Stows(journal[k]) { StowedIsPublished(job, journal, k, k); }
      assert t in created ==> NewDirectory(job, t);
    }
  }

  /** An original file's place is never taken by a directory. */
  lemma OriginalNoDirectory(job: Job, journal: seq<Record>, created: seq<Path>, live: Tree, t: Path)
    requires Settled(job, journal, created, live) && WellFormed(job.before) && t in job.before.files
    ensures t !in live.dirs
  {
    assert t in created ==> NewDirectory(job, t);
  }

  /** A journaled target may change without disturbing the rest. */
  lemma TargetChanged(job: Job, journal: seq<Record>, created: seq<Path>, live: Tree, k: nat, files: map<Path, File>)
    requires k < |journal| && Settled(job, journal, created, live)
    requires forall p | p != journal[k].target :: Same(files, live.files, p)
    requires journal[k].target in files ==> journal[k].target in job.before.files
    ensures Settled(job, journal, created, Tree(files, live.dirs))
  {
    hide Job.Admitted, Job.Accepts, DirectoriesKept;
    assert Journaled(journal, journal[k].target);
    forall p | p in files && p != journal[k].target ensures p in live.files { assert Same(files, live.files, p); }
    forall p | !Journaled(journal, p) && p != job.temporary ensures Same(files, job.before.files, p) {
      assert Same(live.files, job.before.files, p) && Same(files, live.files, p);
    }
  }

  /** A directory that was moved aside comes back with what the run had put in it. */
  lemma TreeRestored(job: Job, journal: seq<Record>, created: seq<Path>, live: Tree, k: nat, now: Tree)
    requires k < |journal| && Settled(job, journal, created, live) && job.Stows(journal[k])
    requires forall p | p in now.files :: Holds(live.files, p, now.files[p]) || p in job.shipped
    requires forall p | p in live.files :: Holds(now.files, p, live.files[p]) || p in job.shipped
    requires forall d | d in now.dirs :: (d in live.dirs && now.dirs[d] == live.dirs[d]) || d in created
    requires forall d | d in live.dirs :: d in now.dirs
    ensures Settled(job, journal, created, now)
  {
    hide Job.Admitted, Job.Accepts, Ancestor;
    StowedIsPublished(job, journal, k, k);
    forall p | !Journaled(journal, p) && p != job.temporary ensures Same(now.files, job.before.files, p) {
      assert Same(live.files, job.before.files, p);
    }
    assert forall d | d in created :: NewDirectory(job, d);
  }

  /** An original directory that had been cleaned away may come back, and one the run had created. */
  lemma DirectoryRestored(job: Job, journal: seq<Record>, created: seq<Path>, live: Tree, d: Path, inode: nat)
    requires Settled(job, journal, created, live) && (d in job.before.dirs || d in created) && d !in live.dirs
    ensures Settled(job, journal, created, Tree(live.files, live.dirs[d := inode]))
  {
    assert d in created ==> NewDirectory(job, d);
  }

  /** At an original directory, or one the run created, there is never a file. */
  lemma DirectoryIsNoFile(job: Job, journal: seq<Record>, created: seq<Path>, live: Tree, d: Path)
    requires Settled(job, journal, created, live) && (d in job.before.dirs || d in created)
    ensures d !in live.files
  {
    assert d in created ==> NewDirectory(job, d);
    assert d in job.shipped || d == MANIFEST ==> job.Target(d);
  }

  /** Above an original file, or a directory of the run, there are only directories, whatever the run has
      done since. */
  lemma NoFileAboveOriginal(job: Job, journal: seq<Record>, created: seq<Path>, live: Tree, t: Path, k: nat)
    requires Settled(job, journal, created, live) && (t in job.before.files || t in created) && 0 < k < |t|
    ensures (t[..k] in job.before.dirs || t[..k] in created) && t[..k] !in live.files
  {
    if t in job.before.files { PrefixesAreDirectories(job.before, t, k); }
    DirectoryIsNoFile(job, journal, created, live, t[..k]);
  }

  /** A fully undone journal leaves the original files, less those whose backup was overwritten. */
  lemma FullyUndone(job: Job, journal: seq<Record>, created: seq<Path>, live: Tree, undo: map<Path, File>)
    requires Settled(job, journal, created, live) && Undoing(job, journal, 0, true, live.files, undo)
    ensures forall p | p != job.temporary :: Same(live.files, job.before.files - Lost(journal), p)
  {
    forall p | p != job.temporary ensures Same(live.files, job.before.files - Lost(journal), p) {
      if Journaled(journal, p) {
        var i :| 0 <= i < |journal| && journal[i].target == p;
        assert Reverted(job, journal, i, live.files, undo);
        assert p in Lost(journal) <==> journal[i].backup.Some? && Overwritten(journal, i);
      } else {
        assert Same(live.files, job.before.files, p);
        assert p !in Lost(journal);
      }
    }
  }

  /** Once all files are back, a created directory is empty as soon as the later ones are gone. */
  lemma CreatedIsEmpty(job: Job, journal: seq<Record>, created: seq<Path>, live: Tree, undo: map<Path, File>, k: nat)
    requires Settled(job, journal, created, live) && Undoing(job, journal, 0, true, live.files, undo) && k < |created|
    requires forall i | k < i < |created| :: created[i] !in live.dirs
    ensures EmptyDirectory(live, created[k])
  {
    var c := created[k];
    assert c in created && !Exists(job.before, c);
    FullyUndone(job, journal, created, live, undo);
    forall p | p in live.files && p != [] ensures Parent(p) != c {
      if p == job.temporary {
        assert |c| > 0 && |Parent(p)| == 0;
      } else {
        assert Same(live.files, job.before.files - Lost(journal), p);
        assert p in job.before.files;
      }
    }
    forall d | d in live.dirs && d != [] ensures Parent(d) != c {
      if d in job.before.dirs {
      } else {
        var i :| 0 <= i < |created| && created[i] == d;
        assert i <= k;
        assert Parent(d) == c ==> c < d;
      }
    }
  }

  /** Removing a created directory, or an empty one above a stale entry, loses nothing. */
  lemma CreatedRemoved(job: Job, journal: seq<Record>, created: seq<Path>, live: Tree, k: nat)
    requires k < |created| && Settled(job, journal, created, live)
    ensures created[k] != [] && created[k] !in live.files
    ensures Settled(job, journal, created, Tree(live.files, live.dirs - {created[k]}))
  {
    var c := created[k];
    assert c in created && NewDirectory(job, c);
    DirectoryIsNoFile(job, journal, created, live, c);
  }
}
