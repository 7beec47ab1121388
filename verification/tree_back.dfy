/** The way back of a directory that the stale step had moved aside. */
module TreeBack {
  import opened Paths
  import opened FileSystem
  import opened ReleaseSpec
  import opened RollbackNames
  import opened RollbackSteps

  /** What is known of the rollback tree while the journal is replayed. */
  ghost predicate UndoUsable(job: Job, journal: seq<Record>, created: seq<Path>, undo: Tree) {
    Stowed(job, journal, created, undo) && BackupsAreFiles(job, journal, undo.dirs)
  }

  lemma UsableFromKept(job: Job, journal: seq<Record>, created: seq<Path>, files: map<Path, File>, undo: Tree)
    requires UndoKept(job, journal, created, undo) && AllApplied(job, journal, files, undo.files) && WellFormed(undo)
    ensures UndoUsable(job, journal, created, undo)
  {
    hide Applied, StowedAt;
  }

  /** The rollback tree only shrinks. */
  lemma UsableShrinks(job: Job, journal: seq<Record>, created: seq<Path>, undo: Tree, now: Tree)
    requires UndoUsable(job, journal, created, undo)
    requires forall q | q in now.files :: Holds(undo.files, q, now.files[q])
    requires forall d | d in now.dirs :: d in undo.dirs
    ensures UndoUsable(job, journal, created, now)
  {
    forall i | 0 <= i < |journal| && job.Stows(journal[i]) ensures StowedAt(job, journal[i].target, created, now) {
      assert StowedAt(job, journal[i].target, created, undo);
    }
  }

  /** The kind of thing a backup that is still there is. */
  lemma BackupKind(job: Job, journal: seq<Record>, created: seq<Path>, undo: Tree, k: nat)
    requires job.Admitted() && job.Accepts(journal) && UndoUsable(job, journal, created, undo)
    requires k < |journal| && journal[k].backup.Some? && Exists(undo, journal[k].backup.value)
    ensures if journal[k].target in job.before.files then journal[k].backup.value !in undo.dirs
            else job.Stows(journal[k]) && journal[k].backup.value !in undo.files && journal[k].target in created
    ensures journal[k].backup.value == job.Backup(journal[k].target) && journal[k].backup.value != []
  {
    hide Job.Admitted, Job.Accepts, Job.Swept, Job.Crowded;
    RecordNames(job, journal, k);
    BackupNotRoot(job, journal[k].target);
    if journal[k].target !in job.before.files {
      var a, b := journal[k].target, journal[k].backup.value;
      assert StowedAt(job, a, created, undo);
      assert a + b[|b|..] == a;
    }
  }

  lemma BackupNotRoot(job: Job, t: Path)
    requires job.Admitted() && job.Target(t)
    ensures job.Backup(t) != [] && t != []
  {
    assert t in job.shipped || t in job.stale ==> CodePath(t);
  }

  /** No directory that was moved aside lies above a target that has something to go back to. */
  lemma NotAboveRestored(job: Job, journal: seq<Record>, i: nat, k: nat)
    requires job.Admitted() && job.Accepts(journal) && i < |journal| && k < |journal|
    requires job.Stows(journal[i]) && (journal[k].target in job.before.files || job.Stows(journal[k]))
    ensures !(journal[i].target < journal[k].target)
  {
    hide Job.Admitted, Job.Crowded, Job.AboveShipped;
    var a, t := journal[i].target, journal[k].target;
    RecordNames(job, journal, i);
    SweptIsTarget(job, a);
    if t in job.before.files {
      StaleAboveOriginal(job, a, t);
    } else {
      RecordNames(job, journal, k);
      if a < t { BelowStale(job, a, t); }
    }
  }

  /** A directory on the way to such a target is none of those. */
  lemma ParentIsNotMoved(job: Job, journal: seq<Record>, k: nat, n: nat, dirs: map<Path, nat>, j: nat, inode: nat)
    requires job.Admitted() && job.Accepts(journal) && k < |journal| && n <= |journal| && Absent(job, journal, n, dirs)
    requires journal[k].target in job.before.files || job.Stows(journal[k])
    requires 0 < j < |journal[k].target|
    ensures Absent(job, journal, n, dirs[journal[k].target[..j] := inode])
  {
    hide Job.Admitted, Job.Accepts, Job.Stows;
    forall i | 0 <= i < n && job.Stows(journal[i]) ensures journal[i].target != journal[k].target[..j] {
      NotAboveRestored(job, journal, i, k);
    }
  }

  /** The way back of a file, on values. */
  lemma FileComesBack(job: Job, journal: seq<Record>, created: seq<Path>, files: map<Path, File>, live: Tree,
                      undo: Tree,
                      k: nat, clean: bool)
    requires k < |journal| && Settled(job, journal, created, live) && journal[k].target in job.before.files
    requires Undoing(job, journal, k + 1, clean, files, undo.files) && UndoUsable(job, journal, created, undo)
    requires live.files == files - {journal[k].target} && journal[k].target != job.temporary
    requires journal[k].backup.Some? && journal[k].backup.value in undo.files
    ensures var b := journal[k].backup.value;
      var now := Tree(live.files[journal[k].target := undo.files[b]], live.dirs);
      var left := Tree(undo.files - {b}, undo.dirs);
      && Settled(job, journal, created, now) && Undoing(job, journal, k, clean, now.files, left.files)
      && UndoUsable(job, journal, created, left) && job.Safe(Snapshot(now.files, left.files))
      && Same(now.files, live.files, job.temporary)
  {
    hide Job.Admitted, Job.Accepts, Undoing, DirectoriesKept, Untouched, FilesKnown, Job.Safe, Stowed;
    var t, b := journal[k].target, journal[k].backup.value;
    var now, left := Tree(live.files[t := undo.files[b]], live.dirs), Tree(undo.files - {b}, undo.dirs);
    MovedBack(job, journal, k, clean, files, undo.files, now.files);
    TargetChanged(job, journal, created, live, k, now.files);
    UsableShrinks(job, journal, created, undo, left);
    UndoingIsSafe(job, journal, k, clean, created, now, left.files);
  }

  /** What comes back: shipped files and created directories, strictly below the target and at it. */
  lemma GraftBack(job: Job, a: Path, created: seq<Path>, live: Tree, undo: Tree)
    requires StowedAt(job, a, created, undo) && WellFormed(undo) && a != []
    ensures var now := GraftedOnto(live, undo, job.Backup(a), a);
      && (forall p | p in now.files ::
            Holds(live.files, p, now.files[p]) || (Holds(job.shipped, p, now.files[p]) && a < p))
      && (forall p | p in live.files ::
            Holds(now.files, p, live.files[p]) || (p in job.shipped && Holds(now.files, p, job.shipped[p])))
      && (forall d | d in now.dirs :: (d in live.dirs && now.dirs[d] == live.dirs[d]) || (d in created && a <= d))
      && (forall d | d in live.dirs :: d in now.dirs)
  {
    var b := job.Backup(a);
    var now := GraftedOnto(live, undo, b, a);
    forall p | p in now.files
      ensures Holds(live.files, p, now.files[p]) || (Holds(job.shipped, p, now.files[p]) && a < p)
    {
      GraftedAt(undo.files, b, a, p);
      if a <= p && b + p[|a|..] in undo.files {
        var q := b + p[|a|..];
        assert q[|b|..] == p[|a|..] && a + p[|a|..] == p;
        assert p == a ==> q == b;
        assert b < q;
      }
    }
    forall p | p in live.files
      ensures Holds(now.files, p, live.files[p]) || (p in job.shipped && Holds(now.files, p, job.shipped[p]))
    {
      assert p in now.files;
    }
    forall d | d in now.dirs ensures (d in live.dirs && now.dirs[d] == live.dirs[d]) || (d in created && a <= d) {
      GraftedAt(undo.dirs, b, a, d);
      if a <= d && b + d[|a|..] in undo.dirs {
        assert (b + d[|a|..])[|b|..] == d[|a|..] && a + d[|a|..] == d;
      }
    }
  }

  /** The whole step on values. */
  lemma TreeComesBack(job: Job, journal: seq<Record>, created: seq<Path>, live: Tree, undo: Tree, k: nat, clean: bool)
    requires k < |journal| && Settled(job, journal, created, live) && job.Stows(journal[k])
    requires Undoing(job, journal, k + 1, clean, live.files, undo.files) && UndoUsable(job, journal, created, undo)
    requires WellFormed(undo) && Absent(job, journal, k + 1, live.dirs)
    ensures var b := journal[k].backup.value;
      var now, left := GraftedOnto(live, undo, b, journal[k].target), PrunedAt(undo, b);
      && Settled(job, journal, created, now) && Undoing(job, journal, k, clean, now.files, left.files)
      && UndoUsable(job, journal, created, left) && Absent(job, journal, k, now.dirs)
      && job.Safe(Snapshot(now.files, left.files))
      && Same(now.files, live.files, job.temporary)
  {
    hide Job.Admitted, Job.Accepts, Undoing, Applied, Held, Reverted, GraftedOnto, Job.Safe, DirectoriesKept, Untouched,
      FilesKnown, Job.Swept, Job.Crowded, StowedAt;
    var a, b := journal[k].target, journal[k].backup.value;
    var now, left := GraftedOnto(live, undo, b, a), PrunedAt(undo, b);
    RecordNames(job, journal, k);
    assert StowedAt(job, a, created, undo);
    assert b !in undo.files by { StowedIsNoFile(job, a, created, undo); }
    BackupNotRoot(job, a);
    GraftBack(job, a, created, live, undo);
    TreeRestored(job, journal, created, live, k, now);
    TreeMovedBack(job, journal, k, clean, live.files, undo.files, now.files, left.files);
    UsableShrinks(job, journal, created, undo, left);
    forall i | 0 <= i < k && job.Stows(journal[i]) ensures journal[i].target !in now.dirs {
      BothMoved(job, journal, i, k);
    }
    UndoingIsSafe(job, journal, k, clean, created, now, left.files);
    assert job.temporary !in job.shipped by { TemporaryIsNotShipped(job); }
  }

  lemma StowedIsNoFile(job: Job, a: Path, created: seq<Path>, undo: Tree)
    requires StowedAt(job, a, created, undo)
    ensures job.Backup(a) !in undo.files
  {
  }

  lemma TemporaryIsNotShipped(job: Job)
    requires job.Admitted()
    ensures job.temporary !in job.shipped
  {
    assert !job.Target(job.temporary);
  }

  lemma BothMoved(job: Job, journal: seq<Record>, i: nat, k: nat)
    requires job.Admitted() && job.Accepts(journal) && i < k < |journal| && job.Stows(journal[i])
    requires job.Stows(journal[k])
    ensures !(journal[k].target <= journal[i].target)
  {
    hide Job.Admitted;
    NotAboveRestored(job, journal, k, i);
    var a, t := journal[k].target, journal[i].target;
    assert a <= t && |a| == |t| ==> a == t;
  }
}
