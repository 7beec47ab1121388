/** What one installation is meant to do, in terms of the trees before it: the pure side of the
    release installer. */
module ReleaseSpec {
  import opened Wrappers
  import opened Paths
  import opened FileSystem

  const MANIFEST: Path := [MANIFEST_NAME]

  /** An undo-journal entry: the original of `target`, if there was one, sits at `backup` in the
      rollback tree; `published` says that new content has been put at the target. */
  datatype Record = Record(target: Path, backup: Option<Path>, published: bool)

  predicate Journaled(journal: seq<Record>, p: Path) {
    exists i :: 0 <= i < |journal| && journal[i].target == p
  }

  /** A later record reused this record's backup name. */
  predicate Overwritten(journal: seq<Record>, i: nat)
    requires i < |journal|
  {
    exists j :: i < j < |journal| && journal[j].backup == journal[i].backup
  }

  /** The originals whose backup a later record replaced. */
  ghost function Lost(journal: seq<Record>): set<Path> {
    set i | 0 <= i < |journal| && journal[i].backup.Some? && Overwritten(journal, i) :: journal[i].target
  }

  /** The proper ancestors, below the root, of some entry. */
  predicate Ancestor(entries: seq<Path>, d: Path) {
    d != [] && exists i :: 0 <= i < |entries| && d < entries[i]
  }

  /** Paths under a protected root; the manifest itself is not one of them. */
  predicate Protected(p: Path) {
    p != [] && p[0] in PROTECTED_ROOTS - {MANIFEST_NAME}
  }

  /** `identity` on the paths that an installation must not replace; None when a check throws. */
  function Identities(t: Tree): Option<seq<Option<nat>>> {
    if [".env"] !in t.files || [".env.runtime"] !in t.files || ["runtime"] !in t.dirs
       || ["runtime", "m4"] in t.files || ["var", "agent-memory-fabric"] !in t.dirs then None
    else Some([Some(t.files[[".env"]].inode), Some(t.files[[".env.runtime"]].inode), Some(t.dirs[["runtime"]]),
               if ["runtime", "m4"] in t.dirs then Some(t.dirs[["runtime", "m4"]]) else None,
               Some(t.dirs[["var", "agent-memory-fabric"]])])
  }

  /** Two identities are the same exactly if each of the five paths has kept its inode. */
  lemma IdentitiesTell(a: Tree, b: Tree)
    requires Identities(a).Some? && Identities(b).Some?
    ensures Identities(a) == Identities(b) <==>
      && a.files[[".env"]].inode == b.files[[".env"]].inode
      && a.files[[".env.runtime"]].inode == b.files[[".env.runtime"]].inode
      && a.dirs[["runtime"]] == b.dirs[["runtime"]]
      && Same(a.dirs, b.dirs, ["runtime", "m4"])
      && a.dirs[["var", "agent-memory-fabric"]] == b.dirs[["var", "agent-memory-fabric"]]
  {
    var x, y := Identities(a).value, Identities(b).value;
    assert x == y <==> |x| == |y| && forall i | 0 <= i < |x| :: x[i] == y[i];
    assert |x| == 5 && |y| == 5;
    assert x == y ==> x[0] == y[0] && x[1] == y[1] && x[2] == y[2] && x[3] == y[3] && x[4] == y[4];
  }

  /** One installation over the tree `before`: publish `shipped` (listed in `current`), remove
      `stale`, replace the manifest by way of the file `temporary`. */
  datatype Job = Job(before: Tree, shipped: map<Path, File>, current: seq<Path>, stale: seq<Path>,
                     temporary: Path, manifest: Content) {

    predicate Target(p: Path) {
      p in shipped || p in stale || p == MANIFEST
    }

    /** Where moveForRollback puts the original of a target. */
    function Backup(p: Path): Path {
      if p in shipped then p
      else if p == MANIFEST then ["manifest", "previous.json"]
      else ["stale"] + p
    }

    /** What the checks made before the first mutation establish. */
    ghost predicate Admitted() {
      && WellFormed(before)
      && NoRepeats(current) && (forall p :: p in current <==> p in shipped)
      && NoRepeats(stale) && (forall p | p in stale :: p !in shipped)
      && (forall i, j | 0 <= i <= j < |stale| :: !(stale[j] < stale[i]))
      && (forall p | p in shipped :: CodePath(p) && p[..1] != temporary)
      && (forall p | p in stale :: CodePath(p))
      && (forall p, k | p in shipped && 0 < k < |p| :: p[..k] !in shipped)
      && (forall p | Target(p) :: p !in before.dirs)
      && (forall p, k | Target(p) && 0 < k < |p| :: p[..k] !in before.files)
      && Identities(before).Some?
      && |temporary| == 1 && !Target(temporary) && !Exists(before, temporary) && !Protected(temporary)
    }

    // A stale name may lie above a shipped one if nothing is on disk there. The publishing step then makes
    // a directory of it, and the stale step moves that directory away with all it holds.

    predicate AboveShipped(d: Path) {
      exists p :: p in shipped && d < p
    }

    predicate UnderStale(p: Path) {
      exists k :: 0 < k < |p| && p[..k] in stale
    }

    /** No stale entry lies above a shipped one. The installer does not check this. */
    predicate Layered() {
      forall p | p in shipped :: !UnderStale(p)
    }

    /** The stale names at which the stale step finds a directory. */
    predicate Swept(d: Path) {
      d in stale && d !in before.files && AboveShipped(d) && !UnderStale(d)
    }

    /** The targets that moveForRollback is called for. */
    predicate Handled(q: Path) {
      q in shipped || q == MANIFEST || (q in stale && (q in before.files || Swept(q)))
    }

    // What can make a call fail without any fault.

    /** The original of p and the directories above the backup of q need the same name. */
    predicate Obstructs(p: Path, q: Path) {
      Target(p) && p in before.files && Handled(q) && Backup(p) < Backup(q)
    }

    /** The name for a directory to be moved aside is taken by an original or a non-empty directory. */
    predicate Crowded(d: Path) {
      exists p :: p in shipped &&
        ((p in before.files && Backup(d) <= p) || (Backup(d) < p && |p| > |Backup(d)| + 1))
    }

    ghost predicate Obstructed() {
      (exists p, q :: Obstructs(p, q)) || (exists d :: Swept(d) && Crowded(d))
    }

    /** A shipped file takes the place of a directory above a stale entry, which the clean-up after the
        installation then fails to remove. */
    ghost predicate Blocked() {
      exists d :: d in shipped && !UnderStale(d) && Ancestor(stale, d)
    }

    /** No other original has the same backup name. */
    ghost predicate Unique(p: Path) {
      p in before.files ==> forall q | Target(q) && q in before.files && q != p :: Backup(q) != Backup(p)
    }

    /** The originals that lose their backup when the journal is complete. */
    ghost predicate Clobbered(p: Path) {
      && p in shipped && p in before.files
      && exists q :: q in before.files && (q in stale || q == MANIFEST) && Backup(q) == p
    }

    /** What holds of the disk at every instant of the run, whatever faults occur: outside the
        targets nothing has changed, and every original whose backup name is its own is at its
        target or in the rollback tree; a shipped path holds its old or its new file, never a
        mixture. */
    ghost predicate Safe(s: Snapshot) {
      && (forall p | !Target(p) && p != temporary :: Same(s.live, before.files, p))
      && (forall p | Target(p) && p in before.files && Unique(p) ::
            Holds(s.live, p, before.files[p]) || Holds(s.undo, Backup(p), before.files[p]))
      && (forall p | p in shipped && Unique(p) && p in s.live ::
            s.live[p] == shipped[p] || Holds(before.files, p, s.live[p]))
    }

    /** The tree an installation leaves when it succeeds. */
    ghost predicate InstalledIn(live: Tree) {
      && (forall p | p != MANIFEST :: Same(live.files, Installed(), p))
      && MANIFEST in live.files && live.files[MANIFEST].content == manifest
      && (forall d | d in live.dirs :: d in before.dirs || Ancestor(current, d))
      && (forall d | d in before.dirs && !Ancestor(stale, d) :: d in live.dirs && live.dirs[d] == before.dirs[d])
      && (forall d | d in live.dirs && Ancestor(stale, d) :: !EmptyDirectory(live, d))
      && (forall p | p in stale :: !Exists(live, p))
    }

    /** The tree a completed rollback leaves: the original files, less those whose backup a later record
        replaced, and possibly the temporary manifest; no new directory, and no old one gone except
        empty ones above stale entries. */
    ghost predicate RestoredIn(journal: seq<Record>, live: Tree) {
      && (forall p | p != temporary :: Same(live.files, before.files - Lost(journal), p))
      && (forall d | d in live.dirs :: d in before.dirs)
      && (forall d | d in before.dirs && !Ancestor(stale, d) :: d in live.dirs && live.dirs[d] == before.dirs[d])
    }

    /** A record of a directory that was moved aside. */
    predicate Stows(r: Record) {
      r.backup.Some? && r.target !in before.files
    }

    /** The journal as the publishing, stale and manifest steps build it, in that order. */
    ghost predicate Accepts(journal: seq<Record>) {
      && (forall i, j | 0 <= i < j < |journal| :: journal[i].target != journal[j].target)
      && (forall i | 0 <= i < |journal| :: Target(journal[i].target))
      && (forall i | 0 <= i < |journal| && journal[i].target in before.files ::
            journal[i].backup == Some(Backup(journal[i].target)))
      && (forall i | 0 <= i < |journal| && journal[i].target in stale :: journal[i].backup.Some?)
      && (forall i | 0 <= i < |journal| && Stows(journal[i]) :: StowsWell(journal, journal[i]))
      && (forall i, j | 0 <= i < j < |journal| :: Rank(journal[i].target) <= Rank(journal[j].target))
    }

    /** When a directory is moved aside, its backup name is free and everything shipped has been published. */
    ghost predicate StowsWell(journal: seq<Record>, r: Record) {
      && Swept(r.target) && !Crowded(r.target) && r.backup == Some(Backup(r.target)) && !r.published
      && (forall p | p in shipped :: Journaled(journal, p))
      && (forall j | 0 <= j < |journal| && journal[j].target in shipped :: journal[j].published)
    }

    function Rank(p: Path): nat {
      if p in shipped then 0 else if p == MANIFEST then 2 else 1
    }

    /** Every original that belongs to a target has been moved aside. */
    ghost predicate Complete(journal: seq<Record>) {
      forall p | Target(p) && p in before.files :: Journaled(journal, p)
    }

    /** The release tree's files once the installation has succeeded, the manifest aside. Shipped files
        below a stale name are not among them. */
    function Installed(): map<Path, File> {
      before.files - (set p | p in stale) - {MANIFEST} + (map p | p in shipped && !UnderStale(p) :: shipped[p])
    }
  }

  // ---- What a run keeps true, on values ----

  /** Everything the run created is new, never a file, and comes after its own parents; no directory has
      gone except ancestors of stale entries. */
  ghost predicate DirectoriesKept(job: Job, dirs: map<Path, nat>, created: seq<Path>) {
    && (forall c | c in created :: NewDirectory(job, c))
    && (forall c, k | c in created && 0 < k < |c| :: c[..k] in job.before.dirs || c[..k] in created)
    && (forall i, j | 0 <= i < j < |created| :: !(created[j] <= created[i]))
    && (forall d | d in dirs :: d in job.before.dirs || d in created)
    && (forall d | d in job.before.dirs && !Ancestor(job.stale, d) :: d in dirs && dirs[d] == job.before.dirs[d])
  }

  /** A name for a directory that was not there before and that no file of the run will take. */
  predicate NewDirectory(job: Job, c: Path) {
    c != [] && !Exists(job.before, c) && c !in job.shipped && c != MANIFEST && c != job.temporary && !Protected(c)
  }

  /** Where a file can be at all. */
  ghost predicate FilesKnown(job: Job, files: map<Path, File>) {
    forall p | p in files :: p in job.before.files || p in job.shipped || p == MANIFEST || p == job.temporary
  }

  /** No directory has been removed at all. */
  ghost predicate AllDirectories(job: Job, dirs: map<Path, nat>, created: seq<Path>) {
    && (forall d | d in job.before.dirs :: d in dirs && dirs[d] == job.before.dirs[d])
    && (forall c | c in created :: c in dirs)
  }

  /** Files that are not journaled are as they were. */
  ghost predicate Untouched(job: Job, journal: seq<Record>, files: map<Path, File>) {
    forall p | !Journaled(journal, p) && p != job.temporary :: Same(files, job.before.files, p)
  }

  /** Record i has been carried out and not yet undone. */
  ghost predicate Applied(job: Job, journal: seq<Record>, i: nat, files: map<Path, File>, undo: map<Path, File>)
    requires i < |journal|
  {
    var r := journal[i];
    && (r.published ==> r.target in files || job.UnderStale(r.target))
    && (r.published && r.target in files && r.target in job.shipped ==> files[r.target] == job.shipped[r.target])
    && (!r.published ==> r.target !in files)
    && (r.target in job.before.files && r.backup.Some? && !Overwritten(journal, i) ==>
          Holds(undo, r.backup.value, job.before.files[r.target]))
  }

  ghost predicate AllApplied(job: Job, journal: seq<Record>, files: map<Path, File>, undo: map<Path, File>) {
    && (forall i | 0 <= i < |journal| :: Applied(job, journal, i, files, undo))
    && (forall i | 0 <= i < |journal| && journal[i].target in job.before.files && journal[i].backup.Some? ::
          journal[i].backup.value in undo)
  }

  /** What every point of a run keeps true of the release tree. */
  ghost predicate Settled(job: Job, journal: seq<Record>, created: seq<Path>, live: Tree) {
    && job.Admitted() && job.Accepts(journal)
    && DirectoriesKept(job, live.dirs, created)
    && Untouched(job, journal, live.files) && FilesKnown(job, live.files)
  }

  /** The journal right after the publishing loop. */
  ghost predicate AllPublished(job: Job, journal: seq<Record>) {
    && |journal| == |job.current|
    && (forall k | 0 <= k < |journal| :: journal[k].target == job.current[k] && journal[k].published)
  }

  /** Record i has been undone: its target is back to the original, unless its backup was overwritten. */
  ghost predicate Reverted(job: Job, journal: seq<Record>, i: nat, files: map<Path, File>, undo: map<Path, File>)
    requires i < |journal|
  {
    var r := journal[i];
    && (if r.target in job.before.files && r.backup.Some? && !Overwritten(journal, i)
        then Holds(files, r.target, job.before.files[r.target])
        else r.target !in files)
    && (r.backup.Some? ==> r.backup.value !in undo)
  }

  /** What remains true of record i even if undoing it failed half-way. */
  ghost predicate Held(job: Job, journal: seq<Record>, i: nat, files: map<Path, File>, undo: map<Path, File>)
    requires i < |journal|
  {
    var r := journal[i];
    job.Unique(r.target) ==>
      && (r.target in job.before.files ==>
            || Holds(files, r.target, job.before.files[r.target])
            || Holds(undo, job.Backup(r.target), job.before.files[r.target]))
      && (r.target in job.shipped && r.target in files ==>
            files[r.target] == job.shipped[r.target] || Holds(job.before.files, r.target, files[r.target]))
  }

  /** The rollback has dealt with the records from k on; `clean` as long as nothing has failed. */
  ghost predicate Undoing(job: Job, journal: seq<Record>, k: nat, clean: bool, files: map<Path, File>, undo: map<Path,
                          File>)
    requires k <= |journal|
  {
    && (forall i | 0 <= i < k :: Applied(job, journal, i, files, undo))
    && (forall i | k <= i < |journal| :: Held(job, journal, i, files, undo))
    && (clean ==> forall i | k <= i < |journal| :: Reverted(job, journal, i, files, undo))
  }

  /** Every state the disk has been in since `start` was safe. */
  ghost predicate SafeSince(job: Job, trace: seq<Snapshot>, start: nat) {
    start <= |trace| && forall k | start <= k < |trace| :: job.Safe(trace[k])
  }

  // ---- What a run keeps true of the rollback tree ----

  /** What lies under the backup name of a directory was created or published by the run. */
  ghost predicate StowedAt(job: Job, a: Path, created: seq<Path>, undo: Tree) {
    var b := job.Backup(a);
    && b !in undo.files
    && (forall q | q in undo.files && b < q ::
          a + q[|b|..] in job.shipped && undo.files[q] == job.shipped[a + q[|b|..]])
    && (forall d | d in undo.dirs && b <= d :: a + d[|b|..] in created)
  }

  ghost predicate Stowed(job: Job, journal: seq<Record>, created: seq<Path>, undo: Tree) {
    forall i | 0 <= i < |journal| && job.Stows(journal[i]) :: StowedAt(job, journal[i].target, created, undo)
  }

  ghost predicate OriginalName(job: Job, f: Path) {
    exists p :: job.Target(p) && p in job.before.files && job.Backup(p) == f
  }

  ghost predicate PrefixName(job: Job, d: Path) {
    exists q :: job.Handled(q) && d < job.Backup(q)
  }

  ghost predicate StowedName(job: Job, journal: seq<Record>, q: Path) {
    exists i :: 0 <= i < |journal| && job.Stows(journal[i]) && job.Backup(journal[i].target) <= q
  }

  /** Every name in the rollback tree has one of the purposes it can have. */
  ghost predicate NamesKnown(job: Job, journal: seq<Record>, undo: Tree) {
    && (forall f | f in undo.files :: OriginalName(job, f) || StowedName(job, journal, f))
    && (forall d | d in undo.dirs && d != [] :: PrefixName(job, d) || StowedName(job, journal, d))
  }

  /** The directories above the backup name of every journaled target are there. */
  ghost predicate NamesPlaced(job: Job, journal: seq<Record>, dirs: map<Path, nat>) {
    forall i, k | 0 <= i < |journal| && 0 <= k < |job.Backup(journal[i].target)| ::
      job.Backup(journal[i].target)[..k] in dirs
  }

  /** Backups of files are no directories. */
  ghost predicate BackupsAreFiles(job: Job, journal: seq<Record>, dirs: map<Path, nat>) {
    forall i | 0 <= i < |journal| && journal[i].target in job.before.files && journal[i].backup.Some? ::
      journal[i].backup.value !in dirs
  }

  /** The directories moved by the first k records are not in the release tree. */
  ghost predicate Absent(job: Job, journal: seq<Record>, k: nat, dirs: map<Path, nat>)
    requires k <= |journal|
  {
    forall i | 0 <= i < k && job.Stows(journal[i]) :: journal[i].target !in dirs
  }

  lemma ManifestIsNeither(job: Job)
    requires job.Admitted()
    ensures MANIFEST !in job.shipped && MANIFEST !in job.stale
  {
    assert MANIFEST[0] in PROTECTED_ROOTS;
  }

  lemma StaleNames(a: Path, b: Path)
    ensures ["stale"] + a == ["stale"] + b ==> a == b
    ensures ["stale"] + a != ["manifest", "previous.json"]
  {
    assert (["stale"] + a)[1..] == a && (["stale"] + b)[1..] == b;
    assert (["stale"] + a)[0] == "stale";
  }

  /** Backup names can coincide in two ways only: a shipped `stale/x` with a stale `x`, and a shipped
      `manifest/previous.json` with the manifest. */
  lemma BackupCollisions(job: Job, p: Path, q: Path)
    requires job.Admitted() && job.Target(p) && job.Target(q) && p != q && job.Backup(p) == job.Backup(q)
    ensures job.Rank(p) != job.Rank(q)
    ensures job.Rank(p) < job.Rank(q) ==> p in job.shipped && job.Backup(q) == p
    ensures job.Rank(p) < job.Rank(q) ==>
              (q in job.stale && p == ["stale"] + q) || (q == MANIFEST && p == ["manifest", "previous.json"])
  {
    ManifestIsNeither(job);
    StaleNames(p, q);
    StaleNames(q, p);
  }

  /** A directory moved aside keeps clear of every original's backup name. */
  lemma TreeKeepsClear(job: Job, a: Path, p: Path)
    requires job.Admitted() && job.Swept(a) && !job.Crowded(a) && job.Target(p) && p in job.before.files
    ensures !(job.Backup(a) <= job.Backup(p))
  {
    ManifestIsNeither(job);
    if job.Backup(a) <= job.Backup(p) && p !in job.shipped {
      assert a != MANIFEST && job.Backup(a) == ["stale"] + a;
      assert job.Backup(a)[0] == "stale" && job.Backup(p)[0] == "stale";
      assert job.Backup(p) == ["stale"] + p;
      assert job.Backup(a)[1..] == a && job.Backup(p)[1..] == p;
      StaleAboveOriginal(job, a, p);
    }
  }

  /** What lies above an original is a directory, so no target lies there. */
  lemma StaleAboveOriginal(job: Job, a: Path, p: Path)
    requires job.Admitted() && job.Target(a) && a !in job.before.files && p in job.before.files && a != []
    ensures !(a <= p)
  {
    assert a <= p && |a| == |p| ==> a == p;
    assert a < p ==> p[..|a|] == a;
    if a < p { PrefixesAreDirectories(job.before, p, |a|); }
  }

  /** An original whose backup name is its own is never overwritten. */
  lemma UniqueStays(job: Job, journal: seq<Record>, i: nat)
    requires job.Admitted() && job.Accepts(journal) && i < |journal|
    requires journal[i].target in job.before.files && job.Unique(journal[i].target)
    ensures !Overwritten(journal, i)
  {
    hide Job.Admitted;
    forall j | i < j < |journal| ensures journal[j].backup != journal[i].backup {
      if journal[j].backup == journal[i].backup {
        var p, q := journal[i].target, journal[j].target;
        RecordNames(job, journal, i);
        RecordNames(job, journal, j);
        if q !in job.before.files { TreeKeepsClear(job, q, p); }
      }
    }
  }

  /** A journal loses only clobbered originals. */
  lemma LostIsClobbered(job: Job, journal: seq<Record>, p: Path)
    requires job.Admitted() && job.Accepts(journal) && p in Lost(journal)
    ensures job.Clobbered(p) && p in job.before.files
  {
    var i :| 0 <= i < |journal| && journal[i].backup.Some? && Overwritten(journal, i) && journal[i].target == p;
    var j :| i < j < |journal| && journal[j].backup == journal[i].backup;
    var q := journal[j].target;
    assert job.Target(p) && job.Target(q) && job.Backup(p) == job.Backup(q) by {
      RecordNames(job, journal, i);
      RecordNames(job, journal, j);
    }
    BackupCollisions(job, p, q);
    RecordNames(job, journal, i);
    if q !in job.before.files {
      RecordNames(job, journal, j);
      TreeKeepsClear(job, q, p);
    }
  }

  lemma RecordNames(job: Job, journal: seq<Record>, i: nat)
    requires job.Admitted() && job.Accepts(journal) && i < |journal| && journal[i].backup.Some?
    ensures job.Target(journal[i].target) && journal[i].backup.value == job.Backup(journal[i].target)
    ensures journal[i].target !in job.before.files ==>
      job.Swept(journal[i].target) && !job.Crowded(journal[i].target) && journal[i].target !in job.shipped
  {
    if journal[i].target !in job.before.files {
      assert job.Stows(journal[i]) && job.StowsWell(journal, journal[i]);
    }
  }

  /** A complete journal loses every clobbered original. */
  lemma ClobberedIsLost(job: Job, journal: seq<Record>, p: Path)
    requires job.Admitted() && job.Accepts(journal) && job.Complete(journal) && job.Clobbered(p)
    ensures p in Lost(journal)
  {
    ManifestIsNeither(job);
    var q :| q in job.before.files && (q in job.stale || q == MANIFEST) && job.Backup(q) == p;
    assert Journaled(journal, p) && Journaled(journal, q);
    var i :| 0 <= i < |journal| && journal[i].target == p;
    var j :| 0 <= j < |journal| && journal[j].target == q;
    assert job.Rank(p) < job.Rank(q);
    assert i < j;
    assert journal[j].backup == journal[i].backup;
    assert Overwritten(journal, i);
  }

  /** Nothing is clobbered exactly when every original has a backup name of its own. */
  lemma NothingClobbered(job: Job)
    requires job.Admitted()
    ensures (forall p :: !job.Clobbered(p)) <==> (forall p | job.Target(p) && p in job.before.files :: job.Unique(p))
  {
    ManifestIsNeither(job);
    if p :| job.Target(p) && p in job.before.files && !job.Unique(p) {
      var q :| job.Target(q) && q in job.before.files && q != p && job.Backup(q) == job.Backup(p);
      BackupCollisions(job, p, q);
      BackupCollisions(job, q, p);
      assert job.Clobbered(p) || job.Clobbered(q);
    }
  }

  /** A completed rollback restores every original file exactly if no backup was overwritten. */
  lemma RestoresUnlessLost(job: Job, journal: seq<Record>, live: Tree)
    requires job.Admitted() && job.Accepts(journal) && job.RestoredIn(journal, live)
    ensures (forall p | p != job.temporary :: Same(live.files, job.before.files, p)) <==> Lost(journal) == {}
  {
    hide Overwritten, job.Accepts, job.Clobbered, Lost;
    forall p | p in Lost(journal) ensures p != job.temporary && !Same(live.files, job.before.files, p) {
      LostIsClobbered(job, journal, p);
      assert p != job.temporary && Same(live.files, job.before.files - Lost(journal), p);
    }
    if Lost(journal) == {} {
      forall p | p != job.temporary ensures Same(live.files, job.before.files, p) {
        assert Same(live.files, job.before.files - Lost(journal), p);
      }
    }
  }

  /** If no backup name is shared, a completed rollback restores every original file. */
  lemma RollbackRestores(job: Job, journal: seq<Record>, live: Tree)
    requires job.Admitted() && job.Accepts(journal) && job.RestoredIn(journal, live) && forall p :: !job.Clobbered(p)
    ensures forall p | p != job.temporary :: Same(live.files, job.before.files, p)
  {
    hide Overwritten, job.Admitted, job.Accepts, job.Clobbered, Lost;
    forall p | p != job.temporary ensures Same(live.files, job.before.files, p) {
      if p in Lost(journal) { LostIsClobbered(job, journal, p); }
      assert Same(live.files, job.before.files - Lost(journal), p);
    }
  }

  /** Then every directory that held a file is back too, with any directory the run created gone. */
  lemma RollbackRestoresDirectories(job: Job, journal: seq<Record>, live: Tree, d: Path, p: Path)
    requires job.Admitted() && job.Accepts(journal) && job.RestoredIn(journal, live) && forall p :: !job.Clobbered(p)
    requires WellFormed(live) && p in job.before.files && d < p
    ensures d in live.dirs && p in live.files && live.files[p] == job.before.files[p]
    ensures forall q | q in live.dirs :: q in job.before.dirs
  {
    hide job.Accepts, job.Clobbered, Lost, Overwritten;
    RollbackRestores(job, journal, live);
    assert p != job.temporary && Same(live.files, job.before.files, p);
    PrefixesAreDirectories(live, p, |d|);
    assert p[..|d|] == d;
  }

  /** And only then: once everything has been moved aside, a completed rollback leaves every clobbered
      original missing. */
  lemma ClobberedIsGone(job: Job, journal: seq<Record>, live: Tree, p: Path)
    requires job.Admitted() && job.Accepts(journal) && job.Complete(journal) && job.RestoredIn(journal, live)
    requires job.Clobbered(p)
    ensures p in job.before.files && p !in live.files
  {
    hide Overwritten, job.Accepts, job.Complete, Lost;
    ClobberedIsLost(job, journal, p);
    assert job.Target(p) && p != job.temporary;
    assert Same(live.files, job.before.files - Lost(journal), p);
  }
}
