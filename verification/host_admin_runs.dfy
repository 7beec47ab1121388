/** What the ownership manifest is for: an interrupted installation is noticed, a complete one is stable. */
module HostAdminRuns {
  import opened Wrappers
  import opened HostAdmin

  // ---- Assigning targets ----

  lemma {:induction false} AssignLooksUp(targets: seq<Target>, f: string, digest: Digest, g: string)
    ensures Lookup(Assign(targets, f, digest), g) == if g == f then Some(digest) else Lookup(targets, g)
  {
    if targets != [] && targets[0].path != f { AssignLooksUp(targets[1..], f, digest, g); }
  }

  predicate Lists(material: seq<Source>, f: string) {
    exists i :: 0 <= i < |material| && material[i].path == f
  }

  lemma {:induction false} AssignAllLooksUp(targets: seq<Target>, material: seq<Source>, g: string)
    requires DistinctPaths(material)
    ensures !Lists(material, g) ==> Lookup(AssignAll(targets, material), g) == Lookup(targets, g)
    ensures forall i | 0 <= i < |material| && material[i].path == g ::
      Lookup(AssignAll(targets, material), g) == Some(Sha256(material[i].content))
    decreases |material|
  {
    if material != [] {
      var next := Assign(targets, material[0].path, Sha256(material[0].content));
      AssignLooksUp(targets, material[0].path, Sha256(material[0].content), g);
      AssignAllLooksUp(next, material[1..], g);
      assert Lists(material[1..], g) ==> exists i :: 0 < i < |material| && material[i].path == g by {
        if Lists(material[1..], g) {
          var i :| 0 <= i < |material[1..]| && material[1..][i].path == g;
          assert material[i + 1].path == g;
        }
      }
      forall i | 0 <= i < |material| && material[i].path == g
        ensures Lookup(AssignAll(targets, material), g) == Some(Sha256(material[i].content))
      {
        if i > 0 { assert material[1..][i - 1] == material[i]; }
      }
    }
  }

  /** An assignment that repeats what is recorded changes nothing, order included. */
  lemma {:induction false} AssignSame(targets: seq<Target>, f: string, digest: Digest)
    requires Lookup(targets, f) == Some(digest)
    ensures Assign(targets, f, digest) == targets
  {
    if targets[0].path != f { AssignSame(targets[1..], f, digest); }
  }

  lemma {:induction false} AssignAllSame(targets: seq<Target>, material: seq<Source>)
    requires forall i | 0 <= i < |material| :: Lookup(targets, material[i].path) == Some(Sha256(material[i].content))
    ensures AssignAll(targets, material) == targets
    decreases |material|
  {
    if material != [] {
      AssignSame(targets, material[0].path, Sha256(material[0].content));
      assert forall i | 0 <= i < |material[1..]| :: material[1..][i] == material[i + 1];
      AssignAllSame(targets, material[1..]);
    }
  }

  lemma {:induction false} LookupHolds(targets: seq<Target>, f: string)
    ensures Lookup(targets, f).Some? <==> exists i :: 0 <= i < |targets| && targets[i].path == f
  {
    if targets != [] && targets[0].path != f {
      LookupHolds(targets[1..], f);
      assert forall i | 0 < i < |targets| :: targets[i] == targets[1..][i - 1];
      assert forall i | 0 <= i < |targets| - 1 :: targets[1..][i] == targets[i + 1];
    }
  }

  // ---- What a plan has seen ----

  /** The targets recorded on disk. */
  function Recorded(files: Files, request: Request): seq<Target>
    requires OldManifest(files, request).Success?
  {
    OldTargets(OldManifest(files, request).value)
  }

  /** Everything recorded is on disk with its digest, and nothing else lies in the way of the material. */
  predicate Agrees(files: Files, request: Request, f: string)
    requires OldManifest(files, request).Success?
  {
    request.Managed(f) && Observed(files, f) == Lookup(Recorded(files, request), f)
  }

  lemma PlanIffAgrees(files: Files, token: TokenState, request: Request)
    ensures PlanOf(files, token, request).Success? <==>
      && OldManifest(files, request).Success?
      && forall f | f in Paths(Recorded(files, request), request.material) :: Agrees(files, request, f)
  {
    hide Request.Managed, Lookup, Paths;
    if OldManifest(files, request).Success? {
      var recorded := Recorded(files, request);
      forall f ensures Problem(files, request, recorded, f).None? <==> Agrees(files, request, f) {}
    }
  }

  /** The manifest that a successful plan writes; its targets extend the recorded ones. */
  lemma PlannedManifest(files: Files, token: TokenState, request: Request, plan: Plan)
    requires request.Valid() && PlanOf(files, token, request) == Success(plan)
    ensures plan.material == request.material + [Source(request.ManifestPath(), ManifestText(plan.manifest, 0))]
    ensures plan.manifest == Manifest(SCHEMA, request.runtimeRoot, request.UnitPath(), request.revision,
                                      AssignAll(Recorded(files, request), request.material))
  {
  }

  /** If any target changes, so does the manifest, and it comes last. */
  lemma ManifestLast(files: Files, token: TokenState, request: Request, plan: Plan)
    requires request.Valid() && PlanOf(files, token, request) == Success(plan) && plan.changes != []
    ensures plan.changes[|plan.changes| - 1].path == request.ManifestPath()
    ensures forall i | 0 <= i < |plan.changes| - 1 ::
      Lists(request.material, plan.changes[i].path) && plan.changes[i].path != request.ManifestPath()
  {
    PlannedPaths(files, token, request, plan);
    PlannedManifest(files, token, request, plan);
    var m := Source(request.ManifestPath(), ManifestText(plan.manifest, 0));
    var inner := Changes(files, request.material);
    ChangesAppend(files, request.material, [m]);
    assert [m][1..] == [] && Changes(files, []) == [];
    assert Changes(files, [m]) == if Observed(files, m.path) == Some(Sha256(m.content)) then [] else [m];
    hide Request.Managed, PlanOf, Observed, Request.Valid, DistinctPaths;
    forall i | 0 <= i < |inner| ensures Lists(request.material, inner[i].path) && inner[i].path != m.path {
      assert inner[i] in inner && inner[i] in request.material;
    }
    if Observed(files, m.path) == Some(Sha256(m.content)) && inner != [] {
      var s := inner[0];
      assert s in inner && s in request.material;
      var i :| 0 <= i < |request.material| && request.material[i] == s;
      UnchangedManifest(files, token, request, plan, i);
    }
  }

  lemma UnchangedManifest(files: Files, token: TokenState, request: Request, plan: Plan, i: nat)
    requires request.Valid() && PlanOf(files, token, request) == Success(plan)
    requires Observed(files, request.ManifestPath()) == Some(Sha256(ManifestText(plan.manifest, 0)))
    requires i < |request.material|
    ensures Observed(files, request.material[i].path) == Some(Sha256(request.material[i].content))
  {
    hide Request.Managed;
    var f := request.material[i].path;
    PlannedManifest(files, token, request, plan);
    PlanIffAgrees(files, token, request);
    PathsHold(Recorded(files, request), request.material, f);
    AssignAllLooksUp(Recorded(files, request), request.material, f);
    assert Recorded(files, request) == plan.manifest.targets;
    assert Agrees(files, request, f);
  }

  // ---- Torn installations ----

  /** If the installation stops after at least one target has been written, but before the manifest is,
      planning the same request again fails, and for one of the two reasons that say so. */
  lemma TornIsDetected(files: Files, token: TokenState, request: Request, plan: Plan, k: nat, tokenNow: TokenState)
    requires request.Valid() && PlanOf(files, token, request) == Success(plan) && 0 < k < |plan.changes|
    ensures PlanOf(Written(files, plan.changes, k), tokenNow, request)
      in {Failure(ManagedTargetDrift), Failure(UnownedTargetExists)}
  {
    hide Request.Managed, Written, Changes, Paths, Agrees, PlanOf, Lookup;
    var now := Written(files, plan.changes, k);
    var f := plan.changes[0].path;
    PlannedPaths(files, token, request, plan);
    ManifestLast(files, token, request, plan);
    WrittenElsewhere(files, plan.changes, k, request.ManifestPath());
    assert OldManifest(now, request) == OldManifest(files, request);
    PlanIffAgrees(files, token, request);
    WrittenAt(files, plan.changes, k, 0);
    assert plan.changes[0] in plan.changes;
    PathsHold(Recorded(files, request), request.material, f);
    FirstOfTorn(files, now, request, f);
    FailsWith(now, tokenNow, request);
  }

  /** The same manifest, and one listed file that is no longer as the manifest implies. */
  lemma FirstOfTorn(files: Files, now: Files, request: Request, f: string)
    requires OldManifest(files, request).Success? && OldManifest(now, request) == OldManifest(files, request)
    requires forall g | g in Paths(Recorded(files, request), request.material) :: Agrees(files, request, g)
    requires f in Paths(Recorded(files, request), request.material) && Observed(now, f) != Observed(files, f)
    ensures var recorded := Recorded(now, request);
      FirstProblem(now, request, recorded, Paths(recorded, request.material))
        in {Some(ManagedTargetDrift), Some(UnownedTargetExists)}
  {
    hide Request.Managed, Paths, Lookup, OldManifest;
    var recorded := Recorded(files, request);
    var paths := Paths(recorded, request.material);
    assert Agrees(files, request, f);
    assert Problem(now, request, recorded, f).Some?;
    var r := FirstProblem(now, request, recorded, paths);
    var g :| g in paths && Problem(now, request, recorded, g) == r;
    assert Agrees(files, request, g);
  }

  lemma FailsWith(files: Files, token: TokenState, request: Request)
    requires OldManifest(files, request).Success?
    requires var recorded := Recorded(files, request);
      FirstProblem(files, request, recorded, Paths(recorded, request.material)).Some?
    ensures PlanOf(files, token, request)
      == Failure(FirstProblem(files, request, Recorded(files, request),
                              Paths(Recorded(files, request), request.material)).value)
  {
  }

  // ---- Complete installations ----

  lemma NotWritten(files: Files, token: TokenState, request: Request, plan: Plan, f: string)
    requires request.Valid() && PlanOf(files, token, request) == Success(plan)
    requires !Lists(request.material, f) && f != request.ManifestPath()
    ensures Observed(Written(files, plan.changes, |plan.changes|), f) == Observed(files, f)
  {
    hide Written, Changes;
    PlannedPaths(files, token, request, plan);
    PlannedManifest(files, token, request, plan);
    forall j | 0 <= j < |plan.changes| ensures plan.changes[j].path != f {
      assert plan.changes[j] in plan.changes && plan.changes[j] in plan.material;
      var l :| 0 <= l < |plan.material| && plan.material[l] == plan.changes[j];
      assert l < |request.material| ==> request.material[l].path != f;
    }
    WrittenElsewhere(files, plan.changes, |plan.changes|, f);
  }

  /** The state a complete installation leaves, as the next plan of any request for the same roots sees it. */
  lemma AfterComplete(files: Files, token: TokenState, request: Request, plan: Plan, next: Request)
    requires request.Valid() && PlanOf(files, token, request) == Success(plan) && Hex40(request.revision)
    requires next.runtimeRoot == request.runtimeRoot && next.unitDirectory == request.unitDirectory
    ensures var now := Written(files, plan.changes, |plan.changes|);
      && OldManifest(now, next) == Success(Some(plan.manifest))
      && (forall f | Lookup(plan.manifest.targets, f).Some? ::
            request.Managed(f) && Observed(now, f) == Lookup(plan.manifest.targets, f))
    ensures forall f | Lookup(Recorded(files, request), f).Some? :: Lookup(plan.manifest.targets, f).Some?
  {
    hide Request.Managed, Written, Changes, Paths, AssignAll;
    var now := Written(files, plan.changes, |plan.changes|);
    var recorded := Recorded(files, request);
    PlannedPaths(files, token, request, plan);
    PlannedManifest(files, token, request, plan);
    PlanIffAgrees(files, token, request);
    AllWritten(files, token, request, plan, |plan.material| - 1);
    forall f
      ensures Lookup(recorded, f).Some? ==> Lookup(plan.manifest.targets, f).Some?
      ensures Lookup(plan.manifest.targets, f).Some? ==>
        request.Managed(f) && Observed(now, f) == Lookup(plan.manifest.targets, f)
    {
      AssignAllLooksUp(recorded, request.material, f);
      PathsHold(recorded, request.material, f);
      LookupHolds(recorded, f);
      if Lists(request.material, f) {
        var i :| 0 <= i < |request.material| && request.material[i].path == f;
        AllWritten(files, token, request, plan, i);
        assert plan.material[i] == request.material[i];
        assert Agrees(files, request, f);
      } else if Lookup(recorded, f).Some? {
        assert Agrees(files, request, f);
        ManifestIsNotManaged(request);
        NotWritten(files, token, request, plan, f);
      }
    }
  }

  /** Planning the same request again after a complete installation finds nothing to do once the token is there, and
      the manifest it would write is the one that is there, byte for byte. */
  lemma CompleteIsStable(files: Files, token: TokenState, request: Request, plan: Plan, tokenNow: TokenState)
    requires request.Valid() && PlanOf(files, token, request) == Success(plan) && Hex40(request.revision)
    ensures var again := PlanOf(Written(files, plan.changes, |plan.changes|), tokenNow, request);
      && again.Success? && again.value.changes == [] && again.value.token == tokenNow
      && again.value.manifest == plan.manifest
  {
    hide Request.Managed, Written, Changes, Paths, AssignAll, Assign;
    var now := Written(files, plan.changes, |plan.changes|);
    var targets := plan.manifest.targets;
    AfterComplete(files, token, request, plan, request);
    PlannedManifest(files, token, request, plan);
    forall i | 0 <= i < |request.material|
      ensures Lookup(targets, request.material[i].path) == Some(Sha256(request.material[i].content))
    {
      AssignAllLooksUp(Recorded(files, request), request.material, request.material[i].path);
    }
    forall f | f in Paths(targets, request.material) ensures Agrees(now, request, f) {
      PathsHold(targets, request.material, f);
      LookupHolds(targets, f);
    }
    PlanIffAgrees(now, tokenNow, request);
    AssignAllSame(targets, request.material);
    var again := PlanOf(now, tokenNow, request).value;
    PlannedManifest(now, tokenNow, request, again);
    assert again.manifest == plan.manifest && again.material == plan.material;
    PlannedPaths(now, tokenNow, request, again);
    if again.changes != [] {
      var s := again.changes[0];
      assert s in again.changes && s in plan.material;
      var i :| 0 <= i < |plan.material| && plan.material[i] == s;
      AllWritten(files, token, request, plan, i);
      assert false;
    }
  }

  /** An installation that stopped anywhere can be planned again exactly if it had not begun to write or was
      complete. */
  lemma ReplanIffWhole(files: Files, token: TokenState, request: Request, plan: Plan, k: nat, tokenNow: TokenState)
    requires request.Valid() && PlanOf(files, token, request) == Success(plan) && Hex40(request.revision)
    requires k <= |plan.changes|
    ensures PlanOf(Written(files, plan.changes, k), tokenNow, request).Success? <==> k == 0 || k == |plan.changes|
  {
    hide Request.Managed, Changes, Paths, AssignAll;
    if k == 0 {
      PlanIffAgrees(files, token, request);
      PlanIffAgrees(files, tokenNow, request);
    } else if k == |plan.changes| {
      CompleteIsStable(files, token, request, plan, tokenNow);
    } else {
      TornIsDetected(files, token, request, plan, k, tokenNow);
    }
  }

  // ---- Runs of complete installations ----

  /** A sequence of complete installations below one pair of roots. */
  ghost predicate Run(states: seq<Files>, requests: seq<Request>, plans: seq<Plan>) {
    && |states| == |requests| + 1 && |plans| == |requests|
    && forall i | 0 <= i < |requests| ::
         && requests[i].Valid() && Hex40(requests[i].revision)
         && requests[i].runtimeRoot == requests[0].runtimeRoot && requests[i].unitDirectory == requests[0].unitDirectory
         && (exists token :: PlanOf(states[i], token, requests[i]) == Success(plans[i]))
         && states[i + 1] == Written(states[i], plans[i].changes, |plans[i].changes|)
  }

  lemma RunStep(states: seq<Files>, requests: seq<Request>, plans: seq<Plan>, i: nat)
    requires Run(states, requests, plans) && i < |requests|
    ensures var now := states[i + 1]; var targets := plans[i].manifest.targets;
      && OldManifest(now, requests[0]) == Success(Some(plans[i].manifest))
      && (forall f | Lookup(targets, f).Some? :: Observed(now, f) == Lookup(targets, f))
      && (i > 0 ==> forall f | Lookup(plans[i - 1].manifest.targets, f).Some? :: Lookup(targets, f).Some?)
  {
    hide Request.Managed, Written, PlanOf, Hex40;
    var token :| PlanOf(states[i], token, requests[i]) == Success(plans[i]);
    AfterComplete(states[i], token, requests[i], plans[i], requests[0]);
    if i > 0 {
      var before :| PlanOf(states[i - 1], before, requests[i - 1]) == Success(plans[i - 1]);
      AfterComplete(states[i - 1], before, requests[i - 1], plans[i - 1], requests[i]);
    }
  }

  /** Over any such run the recorded targets only grow, and after every installation each of them is on disk
      with the digest the manifest on disk records for it. */
  lemma {:induction false} TargetsGrow(states: seq<Files>, requests: seq<Request>, plans: seq<Plan>, i: nat, j: nat)
    requires Run(states, requests, plans) && i <= j < |requests|
    ensures forall f | Lookup(plans[i].manifest.targets, f).Some? ::
      Lookup(plans[j].manifest.targets, f).Some? && Observed(states[j + 1], f) == Lookup(plans[j].manifest.targets, f)
    ensures OldManifest(states[j + 1], requests[0]) == Success(Some(plans[j].manifest))
    decreases j
  {
    hide Request.Managed, Written, PlanOf, Hex40, Lookup, OldManifest, Run;
    RunStep(states, requests, plans, j);
    if i < j { TargetsGrow(states, requests, plans, i, j - 1); }
  }
}
