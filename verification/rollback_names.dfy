/** The names in the rollback tree: what they stand for, and when two of them get in each other's way. */
module RollbackNames {
  import opened Wrappers
  import opened Paths
  import opened FileSystem
  import opened ReleaseSpec

  /** The record a move leaves behind. */
  function MoveRecord(job: Job, target: Path): Record {
    Record(target, if target in job.before.files || job.Swept(target) then Some(job.Backup(target)) else None, false)
  }

  /** What moveForRollback relies on when it is called for a target. */
  ghost predicate Ready(job: Job, journal: seq<Record>, live: Tree, target: Path) {
    && job.Handled(target) && !Journaled(journal, target)
    && (target in live.dirs <==> job.Swept(target))
    && (target in job.shipped ==> forall i | 0 <= i < |journal| :: journal[i].target in job.shipped)
    && (forall i | 0 <= i < |journal| :: job.Rank(journal[i].target) <= job.Rank(target))
    && (job.Swept(target) ==> AllShippedDone(job, journal))
  }

  ghost predicate AllShippedDone(job: Job, journal: seq<Record>) {
    && (forall p | p in job.shipped :: Journaled(journal, p))
    && (forall j | 0 <= j < |journal| && journal[j].target in job.shipped :: journal[j].published)
  }

  /** Everything a run keeps true of the rollback tree until the rollback begins. */
  ghost predicate UndoKept(job: Job, journal: seq<Record>, created: seq<Path>, undo: Tree) {
    Stowed(job, journal, created, undo) && NamesKnown(job, journal, undo) && NamesPlaced(job, journal, undo.dirs)
  }

  lemma JournalGrows(journal: seq<Record>, r: Record)
    ensures forall p :: Journaled(journal + [r], p) <==> Journaled(journal, p) || p == r.target
    ensures forall i | 0 <= i < |journal| ::
      Overwritten(journal + [r], i) <==> (Overwritten(journal, i) || journal[i].backup == r.backup)
    ensures !Overwritten(journal + [r], |journal|)
    ensures forall i | 0 <= i < |journal| :: (journal + [r])[i] == journal[i]
    ensures (journal + [r])[|journal|] == r
  {
    var now := journal + [r];
    forall p ensures Journaled(now, p) <==> Journaled(journal, p) || p == r.target {
      if Journaled(journal, p) {
        var i :| 0 <= i < |journal| && journal[i].target == p;
        assert now[i].target == p;
      }
      assert now[|journal|] == r;
    }
    forall i | 0 <= i < |journal|
      ensures Overwritten(now, i) <==> (Overwritten(journal, i) || journal[i].backup == r.backup)
    {
      if Overwritten(journal, i) {
        var j :| i < j < |journal| && journal[j].backup == journal[i].backup;
        assert now[j].backup == now[i].backup;
      }
      if journal[i].backup == r.backup { assert now[|journal|].backup == now[i].backup; }
    }
  }

  lemma StaleBackup(job: Job, p: Path)
    requires job.Admitted() && p in job.stale
    ensures job.Backup(p) == ["stale"] + p && job.Backup(p)[0] == "stale" && job.Backup(p)[1..] == p && p != []
  {
    ManifestIsNeither(job);
    assert CodePath(p);
  }

  lemma ManifestBackup(job: Job)
    requires job.Admitted()
    ensures job.Backup(MANIFEST) == ["manifest", "previous.json"] && job.Backup(MANIFEST)[0] == "manifest"
  {
    ManifestIsNeither(job);
  }

  /** A directory moved aside and another target that is still to be moved do not lie below one another. */
  lemma SweptApart(job: Job, a: Path, t: Path)
    requires job.Admitted() && job.Swept(a) && job.Handled(t) && t !in job.shipped && a != t
    ensures !(job.Backup(a) <= job.Backup(t))
  {
    hide Job.Admitted, Job.AboveShipped;
    StaleBackup(job, a);
    ManifestBackup(job);
    if job.Backup(a) <= job.Backup(t) {
      assert job.Backup(t)[0] == job.Backup(a)[0];
      StaleBackup(job, t);
      assert job.Backup(t)[1..] == t && a <= t;
      if t in job.before.files {
        SweptIsTarget(job, a);
        StaleAboveOriginal(job, a, t);
      } else {
        BelowStale(job, a, t);
      }
    }
  }

  lemma BelowStale(job: Job, a: Path, t: Path)
    requires a in job.stale && a != [] && a <= t && a != t
    ensures job.UnderStale(t)
  {
    assert |a| == |t| ==> a == t;
    assert t[..|a|] == a;
  }

  lemma Comparable(a: Path, b: Path, q: Path)
    ensures a <= q && b <= q ==> a <= b || b <= a
  {
  }

  lemma SweptIsTarget(job: Job, a: Path)
    requires job.Admitted() && job.Swept(a)
    ensures job.Target(a) && a !in job.before.files && a != [] && a !in job.shipped && a != MANIFEST
  {
    ManifestIsNeither(job);
    assert CodePath(a);
  }

  lemma StowedApart(job: Job, journal: seq<Record>, live: Tree, target: Path, i: nat)
    requires job.Admitted() && job.Accepts(journal) && Ready(job, journal, live, target)
    requires i < |journal| && job.Stows(journal[i])
    ensures !(job.Backup(journal[i].target) <= job.Backup(target)) && target !in job.shipped
    ensures job.Swept(journal[i].target)
  {
    hide Job.Admitted;
    RecordNames(job, journal, i);
    assert journal[i].target != target by { assert Journaled(journal, journal[i].target); }
    SweptApart(job, journal[i].target, target);
  }

  /** A directory on the way to one backup. */
  lemma PrivateParentCreated(job: Job, journal: seq<Record>, created: seq<Path>, live: Tree, undo: Tree,
                             target: Path, k: nat, inode: nat)
    requires job.Admitted() && job.Accepts(journal) && Ready(job, journal, live, target)
    requires UndoKept(job, journal, created, undo) && 0 < k < |job.Backup(target)|
    ensures UndoKept(job, journal, created, Tree(undo.files, undo.dirs[job.Backup(target)[..k] := inode]))
  {
    hide Job.Admitted, Job.Accepts, Ready, OriginalName, StowedName, Job.Handled;
    var d := job.Backup(target)[..k];
    var now := Tree(undo.files, undo.dirs[d := inode]);
    ReadyIsHandled(job, journal, live, target);
    assert d < job.Backup(target);
    assert PrefixName(job, d);
    forall i | 0 <= i < |journal| && job.Stows(journal[i]) ensures StowedAt(job, journal[i].target, created, now) {
      StowedApart(job, journal, live, target, i);
      assert StowedAt(job, journal[i].target, created, undo);
    }
  }

  lemma ReadyIsHandled(job: Job, journal: seq<Record>, live: Tree, target: Path)
    requires Ready(job, journal, live, target)
    ensures job.Handled(target) && !Journaled(journal, target)
  {
  }

  /** A file on the way to a backup is an original in the way. */
  lemma FileInTheWay(job: Job, journal: seq<Record>, created: seq<Path>, live: Tree, undo: Tree, target: Path, k: nat)
    requires job.Admitted() && job.Accepts(journal) && Ready(job, journal, live, target)
    requires UndoKept(job, journal, created, undo) && 0 < k < |job.Backup(target)|
    requires job.Backup(target)[..k] in undo.files
    ensures job.Obstructed()
  {
    hide Job.Admitted, Job.Accepts, Ready, StowedName, Job.Handled;
    var d := job.Backup(target)[..k];
    ReadyIsHandled(job, journal, live, target);
    NotStowedName(job, journal, live, target, d);
    assert OriginalName(job, d);
    var p :| job.Target(p) && p in job.before.files && job.Backup(p) == d;
    assert job.Obstructs(p, target);
  }

  lemma NotStowedName(job: Job, journal: seq<Record>, live: Tree, target: Path, d: Path)
    requires job.Admitted() && job.Accepts(journal) && Ready(job, journal, live, target) && d <= job.Backup(target)
    ensures !StowedName(job, journal, d)
  {
    hide Job.Admitted, Job.Accepts, Ready;
    forall i | 0 <= i < |journal| && job.Stows(journal[i]) ensures !(job.Backup(journal[i].target) <= d) {
      StowedApart(job, journal, live, target, i);
    }
  }

  /** A directory in the place of a file's backup has been made for a backup below it. */
  lemma DirectoryInTheWay(job: Job, journal: seq<Record>, created: seq<Path>, live: Tree, undo: Tree, target: Path)
    requires job.Admitted() && job.Accepts(journal) && Ready(job, journal, live, target)
    requires UndoKept(job, journal, created, undo) && target in job.before.files
    requires job.Backup(target) in undo.dirs && job.Backup(target) != []
    ensures job.Obstructed()
  {
    hide Job.Admitted, Job.Accepts, Ready, StowedName, Job.Handled;
    var d := job.Backup(target);
    ReadyIsHandled(job, journal, live, target);
    HandledIsTarget(job, target);
    NotStowedName(job, journal, live, target, d);
    assert PrefixName(job, d);
    var q :| job.Handled(q) && d < job.Backup(q);
    assert job.Obstructs(target, q);
  }

  lemma HandledIsTarget(job: Job, target: Path)
    requires job.Handled(target)
    ensures job.Target(target)
  {
  }

  lemma NamesKnownMore(job: Job, journal: seq<Record>, r: Record, undo: Tree)
    requires NamesKnown(job, journal, undo)
    ensures NamesKnown(job, journal + [r], undo)
  {
    hide OriginalName, PrefixName, Job.Stows;
    JournalGrows(journal, r);
    forall q | StowedName(job, journal, q) ensures StowedName(job, journal + [r], q) {
      var i :| 0 <= i < |journal| && job.Stows(journal[i]) && job.Backup(journal[i].target) <= q;
      assert (journal + [r])[i] == journal[i];
    }
  }

  ghost predicate PrefixesThere(b: Path, dirs: map<Path, nat>) {
    forall k | 0 <= k < |b| :: b[..k] in dirs
  }

  lemma NamesPlacedMore(job: Job, journal: seq<Record>, r: Record, dirs: map<Path, nat>)
    requires NamesPlaced(job, journal, dirs) && PrefixesThere(job.Backup(r.target), dirs)
    ensures NamesPlaced(job, journal + [r], dirs)
  {
    JournalGrows(journal, r);
  }

  /** One more original in the rollback tree. */
  lemma FileStored(job: Job, journal: seq<Record>, created: seq<Path>, live: Tree, undo: Tree, target: Path, f: File)
    requires job.Admitted() && job.Accepts(journal) && Ready(job, journal, live, target)
    requires UndoKept(job, journal, created, undo) && target in job.before.files
    requires PrefixesThere(job.Backup(target), undo.dirs)
    ensures UndoKept(job, journal + [MoveRecord(job, target)], created,
                     Tree(undo.files[job.Backup(target) := f], undo.dirs))
  {
    hide Job.Admitted, Job.Accepts, Ready, PrefixName, Job.Handled, Job.Swept;
    var r, b := MoveRecord(job, target), job.Backup(target);
    var now := Tree(undo.files[b := f], undo.dirs);
    ReadyIsHandled(job, journal, live, target);
    HandledIsTarget(job, target);
    JournalGrows(journal, r);
    NamesKnownMore(job, journal, r, undo);
    NamesPlacedMore(job, journal, r, undo.dirs);
    assert OriginalName(job, b);
    assert !job.Stows(r);
    forall i | 0 <= i < |journal| && job.Stows(journal[i]) ensures StowedAt(job, journal[i].target, created, now) {
      StowedApart(job, journal, live, target, i);
      assert StowedAt(job, journal[i].target, created, undo);
    }
  }

  /** A record without an original. */
  lemma NothingStored(job: Job, journal: seq<Record>, created: seq<Path>, undo: Tree, target: Path)
    requires UndoKept(job, journal, created, undo) && target !in job.before.files && !job.Swept(target)
    requires PrefixesThere(job.Backup(target), undo.dirs)
    ensures UndoKept(job, journal + [MoveRecord(job, target)], created, undo)
  {
    hide Job.Swept, NamesKnown, StowedAt;
    var r := MoveRecord(job, target);
    JournalGrows(journal, r);
    NamesKnownMore(job, journal, r, undo);
    NamesPlacedMore(job, journal, r, undo.dirs);
  }

  // ---- A directory moved aside ----

  /** What the run has put into a directory that stands at a stale name. */
  ghost predicate OwnTree(job: Job, live: Tree, created: seq<Path>, a: Path) {
    && (forall p | p in live.files && a <= p :: p in job.shipped && live.files[p] == job.shipped[p] && a < p)
    && (forall d | d in live.dirs && a <= d :: d in created)
  }

  /** If the name for the directory is free, nothing crowds it. */
  lemma FreeIsNotCrowded(job: Job, journal: seq<Record>, undo: Tree, a: Path)
    requires job.Admitted() && job.Accepts(journal) && job.Swept(a) && AllShippedDone(job, journal)
    requires NamesPlaced(job, journal, undo.dirs) && WellFormed(undo) && FreeForTree(undo, job.Backup(a))
    requires forall i | 0 <= i < |journal| && journal[i].target in job.before.files && journal[i].backup.Some? ::
      journal[i].backup.value in undo.files
    ensures !job.Crowded(a)
  {
    hide Job.Admitted, Job.Swept, Job.StowsWell, EmptyDirectory;
    var b := job.Backup(a);
    forall p | p in job.shipped
      ensures !((p in job.before.files && b <= p) || (b < p && |p| > |b| + 1))
    {
      assert Journaled(journal, p);
      var i :| 0 <= i < |journal| && journal[i].target == p;
      assert job.Backup(p) == p;
      if p in job.before.files && b <= p {
        assert p in undo.files;
        NothingInside(undo, b, p);
      } else if b < p && |p| > |b| + 1 {
        var d := p[..|b| + 1];
        assert d in undo.dirs;
        NothingInside(undo, b, d);
      }
    }
  }

  /** If it is not free, something does. */
  lemma TakenIsCrowded(job: Job, journal: seq<Record>, created: seq<Path>, live: Tree, undo: Tree, a: Path)
    requires job.Admitted() && job.Accepts(journal) && Ready(job, journal, live, a) && job.Swept(a)
    requires UndoKept(job, journal, created, undo) && WellFormed(undo)
    requires PrefixesThere(job.Backup(a), undo.dirs) && !FreeForTree(undo, job.Backup(a))
    ensures job.Crowded(a) && job.Obstructed()
  {
    hide Job.Admitted, Job.Accepts, Ready, Job.AboveShipped, Job.UnderStale, OriginalName, PrefixName, StowedName,
      Job.Crowded;
    var b := job.Backup(a);
    StaleBackup(job, a);
    assert Parent(b) in undo.dirs by { assert Parent(b) == b[..|b| - 1]; }
    if b in undo.files {
      NotStowedName(job, journal, live, a, b);
      OriginalCrowds(job, a, b);
    } else if c :| Exists(undo, c) && c != [] && Parent(c) == b {
      assert b < c;
      ReadyIsHandled(job, journal, live, a);
      NotStowedChild(job, journal, a, c);
      if c in undo.files {
        OriginalCrowds(job, a, c);
      } else {
        PrefixCrowds(job, a, c);
      }
    }
  }

  lemma OriginalCrowds(job: Job, a: Path, f: Path)
    requires job.Admitted() && job.Swept(a) && OriginalName(job, f) && job.Backup(a) <= f
    ensures job.Crowded(a)
  {
    var p :| job.Target(p) && p in job.before.files && job.Backup(p) == f;
    if !job.Crowded(a) { TreeKeepsClear(job, a, p); }
  }

  lemma PrefixCrowds(job: Job, a: Path, d: Path)
    requires job.Admitted() && job.Swept(a) && PrefixName(job, d) && job.Backup(a) < d
    ensures job.Crowded(a)
  {
    hide Job.Admitted;
    var q :| job.Handled(q) && d < job.Backup(q);
    if q !in job.shipped {
      if a != q { SweptApart(job, a, q); }
    }
  }

  lemma NotStowedChild(job: Job, journal: seq<Record>, a: Path, c: Path)
    requires job.Admitted() && job.Accepts(journal) && job.Swept(a) && !Journaled(journal, a) && job.Backup(a) <= c
    ensures !StowedName(job, journal, c)
  {
    hide Job.Admitted;
    forall i | 0 <= i < |journal| && job.Stows(journal[i]) ensures !(job.Backup(journal[i].target) <= c) {
      var s := journal[i].target;
      RecordNames(job, journal, i);
      assert Journaled(journal, s);
      SweptApart(job, s, a);
      SweptApart(job, a, s);
      Comparable(job.Backup(s), job.Backup(a), c);
    }
  }

  lemma TreeStored(job: Job, journal: seq<Record>, created: seq<Path>, live: Tree, undo: Tree, a: Path)
    requires job.Admitted() && job.Accepts(journal) && Ready(job, journal, live, a) && job.Swept(a)
    requires UndoKept(job, journal, created, undo) && WellFormed(undo) && FreeForTree(undo, job.Backup(a))
    requires PrefixesThere(job.Backup(a), undo.dirs) && OwnTree(job, live, created, a) && a in live.dirs
    ensures UndoKept(job, journal + [MoveRecord(job, a)], created, GraftedOnto(undo, live, a, job.Backup(a)))
  {
    hide Job.Admitted, Job.Accepts, Ready, OriginalName, PrefixName, GraftedOnto, FreeForTree, Job.AboveShipped,
      Job.UnderStale;
    var r, b := MoveRecord(job, a), job.Backup(a);
    var now := GraftedOnto(undo, live, a, b);
    JournalGrows(journal, r);
    GraftedKeys(undo, live, a, b);
    NamesKnownMore(job, journal, r, undo);
    assert (journal + [r])[|journal|] == r && job.Stows(r);
    forall q | (q in now.files && q !in undo.files) || (q in now.dirs && q !in undo.dirs)
      ensures StowedName(job, journal + [r], q)
    {
      assert b <= q;
    }
    NamesPlacedMore(job, journal, r, now.dirs);
    TreeIsStowed(job, created, live, undo, a);
    forall i | 0 <= i < |journal| && job.Stows(journal[i]) ensures StowedAt(job, journal[i].target, created, now) {
      StowedStays(job, journal, created, live, undo, a, i);
    }
  }

  lemma GraftedValues(undo: Tree, live: Tree, a: Path, b: Path, q: Path)
    requires q in GraftedOnto(undo, live, a, b).files
    ensures b <= q && a + q[|b|..] in live.files ==>
      GraftedOnto(undo, live, a, b).files[q] == live.files[a + q[|b|..]]
    ensures !(b <= q) || a + q[|b|..] !in live.files ==>
      q in undo.files && GraftedOnto(undo, live, a, b).files[q] == undo.files[q]
  {
    GraftedAt(live.files, a, b, q);
  }

  lemma TreeIsStowed(job: Job, created: seq<Path>, live: Tree, undo: Tree, a: Path)
    requires WellFormed(undo) && FreeForTree(undo, job.Backup(a))
    requires OwnTree(job, live, created, a) && a in live.dirs
    ensures StowedAt(job, a, created, GraftedOnto(undo, live, a, job.Backup(a)))
  {
    hide GraftedOnto, FreeForTree, WellFormed;
    var b := job.Backup(a);
    var now := GraftedOnto(undo, live, a, b);
    GraftedKeys(undo, live, a, b);
    assert b !in undo.files by { ParentIsThere(undo, b); }
    assert a + b[|b|..] == a;
    forall q | q in now.files && b < q
      ensures a + q[|b|..] in job.shipped && now.files[q] == job.shipped[a + q[|b|..]]
    {
      if q in undo.files { NothingInside(undo, b, q); }
      GraftedValues(undo, live, a, b, q);
    }
    forall d | d in now.dirs && b <= d ensures a + d[|b|..] in created {
      if d in undo.dirs { NothingInside(undo, b, d); }
    }
  }

  lemma StowedStays(job: Job, journal: seq<Record>, created: seq<Path>, live: Tree, undo: Tree, a: Path, i: nat)
    requires job.Admitted() && job.Accepts(journal) && Ready(job, journal, live, a) && job.Swept(a)
    requires Stowed(job, journal, created, undo) && i < |journal| && job.Stows(journal[i])
    ensures StowedAt(job, journal[i].target, created, GraftedOnto(undo, live, a, job.Backup(a)))
  {
    hide Job.Admitted, Job.Accepts, Ready, GraftedOnto, Job.Swept;
    var b, c := job.Backup(a), job.Backup(journal[i].target);
    var now := GraftedOnto(undo, live, a, b);
    GraftedKeys(undo, live, a, b);
    StowedApart(job, journal, live, a, i);
    SweptNotBelow(job, journal, live, a, i);
    assert StowedAt(job, journal[i].target, created, undo);
    forall q | Exists(now, q) ensures c <= q ==> !(b <= q) { Comparable(b, c, q); }
    forall q | q in now.files ensures c <= q ==> q in undo.files && now.files[q] == undo.files[q] {
      GraftedValues(undo, live, a, b, q);
    }
  }

  lemma SweptNotBelow(job: Job, journal: seq<Record>, live: Tree, a: Path, i: nat)
    requires job.Admitted() && job.Accepts(journal) && Ready(job, journal, live, a) && job.Swept(a)
    requires i < |journal| && job.Stows(journal[i])
    ensures !(job.Backup(a) <= job.Backup(journal[i].target))
  {
    hide Job.Admitted;
    RecordNames(job, journal, i);
    assert Journaled(journal, journal[i].target);
    SweptApart(job, a, journal[i].target);
  }

  // ---- At the end of all steps ----

  /** Once everything has been moved aside, nothing was obstructed. */
  lemma NothingObstructed(job: Job, journal: seq<Record>, undo: Tree)
    requires job.Admitted() && job.Accepts(journal) && WellFormed(undo) && NamesPlaced(job, journal, undo.dirs)
    requires forall i | 0 <= i < |journal| && journal[i].target in job.before.files && journal[i].backup.Some? ::
      journal[i].backup.value in undo.files
    requires forall q | job.Handled(q) :: Journaled(journal, q)
    ensures !job.Obstructed()
  {
    hide Job.Admitted, WellFormed, Job.Crowded, Job.AboveShipped, Job.UnderStale;
    forall p, q ensures !job.Obstructs(p, q) {
      if job.Obstructs(p, q) {
        assert job.Handled(p);
        var i :| 0 <= i < |journal| && journal[i].target == p;
        var j :| 0 <= j < |journal| && journal[j].target == q;
        assert job.Backup(q)[..|job.Backup(p)|] == job.Backup(p);
        assert job.Backup(p) in undo.files && job.Backup(p) in undo.dirs;
        NotBoth(undo, job.Backup(p));
      }
    }
    forall d | job.Swept(d) ensures !job.Crowded(d) {
      assert job.Handled(d);
      var i :| 0 <= i < |journal| && journal[i].target == d;
      assert job.Stows(journal[i]) && job.StowsWell(journal, journal[i]);
    }
  }

  lemma NotBoth(t: Tree, p: Path)
    requires WellFormed(t) && p in t.files
    ensures p !in t.dirs
  {
  }

  /** Marking a record as published changes no name. */
  lemma PublishedNames(job: Job, journal: seq<Record>, now: seq<Record>, created: seq<Path>, undo: Tree)
    requires UndoKept(job, journal, created, undo) && |now| == |journal|
    requires forall i | 0 <= i < |journal| :: now[i].target == journal[i].target && now[i].backup == journal[i].backup
    ensures UndoKept(job, now, created, undo)
  {
    hide OriginalName, PrefixName;
    forall q | StowedName(job, journal, q) ensures StowedName(job, now, q) {
      var i :| 0 <= i < |journal| && job.Stows(journal[i]) && job.Backup(journal[i].target) <= q;
      assert job.Stows(now[i]);
    }
  }
}
