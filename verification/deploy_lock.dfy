/** Several installers over one release root, interleaved in any way: the deploy lock as a protocol. */
module DeployLock {
  import opened Wrappers
  import opened ReleaseInstaller
  import opened ReleaseInstall

  type Installer = nat

  /** Where an installer is: before mkdir of the lock, between mkdir and the end of the installation,
      about to remove the lock, or gone for good. */
  datatype Phase = Outside | Inside | Leaving | Gone

  datatype State = State(lock: bool, phases: map<Installer, Phase>) {
    function PhaseOf(p: Installer): Phase {
      if p in phases then phases[p] else Outside
    }

    function Enter(p: Installer, phase: Phase): State {
      this.(phases := phases[p := phase])
    }

    /** Between taking and releasing the lock. */
    predicate Holder(p: Installer) {
      PhaseOf(p) in {Inside, Leaving}
    }

    /** The lock is there, and nobody is left to remove it. */
    ghost predicate Orphaned() {
      lock && forall p :: !Holder(p)
    }
  }

  datatype Event =
    | Take(p: Installer, fault: bool)      // mkdir of the lock
    | Work(p: Installer)                   // any operation on the release tree
    // The unlocked installation ends: with an outcome if it had begun to change the release tree, and then
    // with the calls of its finally block, which may fail.
    | End(p: Installer, outcome: Option<Outcome>, enforceFault: bool, discardFault: bool)
    | Remove(p: Installer, fault: bool)    // rmdir of the lock
    | Kill(p: Installer)                   // the process dies, wherever it is

  /** installRelease keeps the lock if what it catches says that the rollback failed. */
  predicate Preserves(e: Event)
    requires e.End?
  {
    e.outcome.Some? && e.outcome.value.RecoveryRequired?
    && ReportOf(e.outcome.value, e.enforceFault, e.discardFault).Finished?
  }

  predicate Enabled(s: State, e: Event) {
    match e
    case Take(p, _) => s.PhaseOf(p) == Outside
    case Work(p) => s.PhaseOf(p) == Inside
    case End(p, _, _, _) => s.PhaseOf(p) == Inside
    case Remove(p, _) => s.PhaseOf(p) == Leaving
    case Kill(p) => s.PhaseOf(p) != Gone
  }

  function Next(s: State, e: Event): State
    requires Enabled(s, e)
  {
    match e
    case Take(p, fault) =>
      if fault || s.lock then s.Enter(p, Gone)
      else s.Enter(p, Inside).(lock := true)
    case Work(p) => s
    case End(p, _, _, _) => s.Enter(p, if Preserves(e) then Gone else Leaving)
    case Remove(p, fault) => s.Enter(p, Gone).(lock := s.lock && fault)
    case Kill(p) => s.Enter(p, Gone)
  }

  const INITIAL := State(false, map[])

  ghost predicate Run(states: seq<State>, events: seq<Event>) {
    && |states| == |events| + 1 && states[0] == INITIAL
    && forall i | 0 <= i < |events| :: Enabled(states[i], events[i]) && states[i + 1] == Next(states[i], events[i])
  }

  /** At most one holder, who really holds the lock. */
  ghost predicate Exclusive(s: State) {
    && (forall p, q | s.Holder(p) && s.Holder(q) :: p == q)
    && (forall p | s.Holder(p) :: s.lock)
  }

  lemma StepExclusive(s: State, e: Event)
    requires Exclusive(s) && Enabled(s, e)
    ensures Exclusive(Next(s, e))
    ensures forall p | p != e.p :: Next(s, e).PhaseOf(p) == s.PhaseOf(p)
  {
    var t := Next(s, e);
    assert s.Holder(e.p) ==> s.lock;
    forall p | t.Holder(p) && p != e.p ensures s.Holder(p) && s.lock && t.lock {
      assert t.PhaseOf(p) == s.PhaseOf(p);
      assert s.Holder(p);
      assert e.Remove? ==> s.Holder(e.p);
    }
    assert forall p | t.Holder(p) && p != e.p :: !s.Holder(e.p);
    assert forall p | t.Holder(p) && t.Holder(e.p) :: p == e.p;
  }

  /** Mutual exclusion, for every interleaving. */
  lemma {:induction false} AlwaysExclusive(states: seq<State>, events: seq<Event>, i: nat)
    requires Run(states, events) && i < |states|
    ensures Exclusive(states[i])
  {
    if i > 0 {
      AlwaysExclusive(states, events, i - 1);
      StepExclusive(states[i - 1], events[i - 1]);
    }
  }

  function Rank(phase: Phase): nat {
    match phase case Outside => 0 case Inside => 1 case Leaving => 2 case Gone => 3
  }

  lemma {:induction false} PhasesAdvance(states: seq<State>, events: seq<Event>, i: nat, j: nat, p: Installer)
    requires Run(states, events) && i <= j < |states|
    ensures Rank(states[i].PhaseOf(p)) <= Rank(states[j].PhaseOf(p))
    decreases j
  {
    if i < j {
      PhasesAdvance(states, events, i, j - 1, p);
      assert states[j] == Next(states[j - 1], events[j - 1]);
    }
  }

  /** Critical sections do not interleave: between two operations of one installer on the release tree there
      is no operation of another. */
  lemma SectionsDisjoint(states: seq<State>, events: seq<Event>, i: nat, k: nat, j: nat)
    requires Run(states, events) && i < k < j < |events|
    requires events[i].Work? && events[k].Work? && events[j].Work? && events[i].p == events[j].p
    ensures events[k].p == events[i].p
  {
    var p := events[i].p;
    assert Enabled(states[i], events[i]) && Enabled(states[j], events[j]) && Enabled(states[k], events[k]);
    PhasesAdvance(states, events, i, k, p);
    PhasesAdvance(states, events, k, j, p);
    AlwaysExclusive(states, events, k);
    assert states[k].Holder(p) && states[k].Holder(events[k].p);
  }

  lemma StepOrphaned(s: State, e: Event)
    requires s.Orphaned() && Enabled(s, e)
    ensures Next(s, e).Orphaned() && !e.Work? && !e.End? && !e.Remove?
  {
    assert !s.Holder(e.p);
    forall p ensures !Next(s, e).Holder(p) { assert !s.Holder(p); }
  }

  /** An orphaned lock stays, and nobody works on the release tree again. */
  lemma {:induction false} OrphanedForGood(states: seq<State>, events: seq<Event>, i: nat, j: nat)
    requires Run(states, events) && i <= j < |states| && states[i].Orphaned()
    ensures states[j].Orphaned() && forall k | i <= k < j :: !events[k].Work?
    decreases j
  {
    if i < j {
      OrphanedForGood(states, events, i, j - 1);
      StepOrphaned(states[j - 1], events[j - 1]);
    }
  }

  /** A contender that finds the lock leaves it to its holder, and takes no further step: it neither works on the
      release tree nor removes the lock later. */
  lemma ContenderKeepsOut(states: seq<State>, events: seq<Event>, i: nat, j: nat)
    requires Run(states, events) && i < j <= |events| && events[i].Take? && states[i].lock
    ensures states[i + 1].lock && forall q :: states[i + 1].Holder(q) <==> states[i].Holder(q)
    ensures !states[j].Holder(events[i].p) && (j < |events| ==> events[j].p != events[i].p)
  {
    var p := events[i].p;
    assert Enabled(states[i], events[i]) && states[i + 1] == Next(states[i], events[i]);
    forall q ensures states[i + 1].Holder(q) <==> states[i].Holder(q) {
      assert q != p ==> states[i + 1].PhaseOf(q) == states[i].PhaseOf(q);
    }
    PhasesAdvance(states, events, i + 1, j, p);
    if j < |events| { assert Enabled(states[j], events[j]); }
  }

  /** The lock goes away only when its holder removes it. */
  lemma OnlyHolderRemoves(states: seq<State>, events: seq<Event>, i: nat)
    requires Run(states, events) && i < |events| && states[i].lock && !states[i + 1].lock
    ensures events[i].Remove? && states[i].Holder(events[i].p)
    ensures forall q | states[i].Holder(q) :: q == events[i].p
  {
    AlwaysExclusive(states, events, i);
    assert Enabled(states[i], events[i]) && states[i + 1] == Next(states[i], events[i]);
    assert states[i].Holder(events[i].p);
  }

  lemma LeavingOrGone(states: seq<State>, events: seq<Event>, i: nat, k: nat, p: Installer)
    requires Run(states, events) && i < k < |events| && events[i].End? && events[i].p == p
    requires states[k].PhaseOf(p) != Gone
    ensures states[k].PhaseOf(p) == Leaving && !Preserves(events[i])
  {
    assert states[i + 1] == Next(states[i], events[i]);
    PhasesAdvance(states, events, i + 1, k, p);
  }

  /** A rollback that was stopped keeps everyone out for good exactly if the failure is reported as such, or
      the installer dies before it removes the lock, or the removal fails. It is reported as such exactly if
      enforceDeploymentRoot succeeds after it. In every other case the next installer gets in. */
  lemma StoppedRollback(states: seq<State>, events: seq<Event>, i: nat, k: nat)
    requires Run(states, events) && i <= k < |events| && events[i].End? && events[k].p == events[i].p
    requires events[i].outcome.Some? && events[i].outcome.value.RecoveryRequired?
    requires states[k].PhaseOf(events[i].p) != Gone && states[k + 1].PhaseOf(events[i].p) == Gone
    ensures i == k <==> !events[i].enforceFault
    ensures if !events[i].enforceFault || events[k].Kill? || (events[k].Remove? && events[k].fault)
            then forall m | k < m < |states| :: states[m].Orphaned() && (m < |events| ==> !events[m].Work?)
            else forall q | states[k + 1].PhaseOf(q) == Outside :: Next(states[k + 1], Take(q, false)).Holder(q)
  {
    var p := events[i].p;
    AlwaysExclusive(states, events, k);
    assert Enabled(states[i], events[i]) && Enabled(states[k], events[k]);
    if i < k { LeavingOrGone(states, events, i, k, p); }
    assert states[k].Holder(p);
    assert states[k + 1] == Next(states[k], events[k]);
    if !events[i].enforceFault || events[k].Kill? || (events[k].Remove? && events[k].fault) {
      StepExclusive(states[k], events[k]);
      var s, t := states[k], states[k + 1];
      forall q ensures !t.Holder(q) { assert q != p ==> !s.Holder(q); }
      forall m | k < m < |states| ensures states[m].Orphaned() && (m < |events| ==> !events[m].Work?) {
        OrphanedForGood(states, events, k + 1, m);
        if m < |events| { StepOrphaned(states[m], events[m]); }
      }
    }
  }

  /** After any other end, a commit, a rollback that was completed, or a refusal before anything was changed, the
      installer goes on to remove the lock; and unless it dies or the removal fails, the next one gets in. */
  lemma OtherEnds(states: seq<State>, events: seq<Event>, i: nat, k: nat)
    requires Run(states, events) && i < k < |events| && events[i].End? && events[k].p == events[i].p
    requires events[i].outcome.None? || events[i].outcome.value.Committed? || events[i].outcome.value.RolledBack?
    requires forall m | i < m < k :: events[m].p != events[i].p
    ensures states[k].PhaseOf(events[i].p) == Leaving && states[k].lock && (events[k].Remove? || events[k].Kill?)
    ensures events[k].Remove? && !events[k].fault ==>
      && !states[k + 1].lock
      && forall q | states[k + 1].PhaseOf(q) == Outside :: Next(states[k + 1], Take(q, false)).Holder(q)
  {
    var p := events[i].p;
    assert Enabled(states[i], events[i]) && states[i + 1] == Next(states[i], events[i]);
    StaysLeaving(states, events, i + 1, k, p);
    AlwaysExclusive(states, events, k);
    assert states[k].Holder(p);
    assert Enabled(states[k], events[k]) && states[k + 1] == Next(states[k], events[k]);
  }

  lemma {:induction false} StaysLeaving(states: seq<State>, events: seq<Event>, i: nat, k: nat, p: Installer)
    requires Run(states, events) && i <= k < |states| && states[i].PhaseOf(p) == Leaving
    requires forall m | i <= m < k :: events[m].p != p
    ensures states[k].PhaseOf(p) == Leaving
    decreases k
  {
    if i < k {
      StaysLeaving(states, events, i, k - 1, p);
      assert states[k] == Next(states[k - 1], events[k - 1]);
    }
  }

  /** A holder that dies leaves the lock to nobody: from then on no one works on the release tree. */
  lemma KilledHolder(states: seq<State>, events: seq<Event>, i: nat, j: nat)
    requires Run(states, events) && i < j < |states| && events[i].Kill? && states[i].Holder(events[i].p)
    ensures states[j].Orphaned() && forall k | i < k < j :: !events[k].Work?
  {
    AlwaysExclusive(states, events, i);
    var s, t := states[i], states[i + 1];
    assert t == Next(s, events[i]);
    forall q ensures !t.Holder(q) { assert q != events[i].p ==> !s.Holder(q); }
    OrphanedForGood(states, events, i + 1, j);
  }

  /** It can happen: the first installer dies at work, and the second finds the lock and gives up. */
  lemma DieAtWork()
    ensures exists states: seq<State>, events ::
      && Run(states, events) && events == [Take(0, false), Work(0), Kill(0), Take(1, false)]
      && states[2].Holder(0) && states[4].PhaseOf(1) == Gone && states[4].Orphaned()
  {
    var events := [Take(0, false), Work(0), Kill(0), Take(1, false)];
    var s1 := Next(INITIAL, events[0]);
    var s2 := Next(s1, events[1]);
    var s3 := Next(s2, events[2]);
    var s4 := Next(s3, events[3]);
    var states := [INITIAL, s1, s2, s3, s4];
    assert Run(states, events);
    assert forall p :: s4.PhaseOf(p) == if p == 0 || p == 1 then Gone else Outside;
    assert states[4].Orphaned();
  }

  /** The lock lost after a stopped rollback: the finally block fails, the holder removes the lock, and the next
      installer works on the release tree. */
  lemma NextGetsIn()
    ensures exists states, events ::
      && Run(states, events) && |events| == 6
      && events[2] == End(0, Some(RecoveryRequired(RootBarred)), true, false) && events[5] == Work(1)
  {
    var events := [Take(0, false), Work(0), End(0, Some(RecoveryRequired(RootBarred)), true, false), Remove(0, false),
                   Take(1, false), Work(1)];
    var s1 := Next(INITIAL, events[0]);
    var s2 := Next(s1, events[1]);
    var s3 := Next(s2, events[2]);
    var s4 := Next(s3, events[3]);
    var s5 := Next(s4, events[4]);
    assert Run([INITIAL, s1, s2, s3, s4, s5, Next(s5, events[5])], events);
  }
}
