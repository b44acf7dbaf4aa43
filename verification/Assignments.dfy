/** Which runs keep what is assigned to each node within its disk and its number of deployments: those whose
    cutovers fit, whatever else happened, and whatever was read too early. */
module Assignments {
  import opened Basics
  import opened Lifecycle
  import opened Scheduler
  import opened Delivery
  import opened ControlPlane
  import opened Effects
  import opened Evacuation
  import opened Capacity

  ghost predicate NodeWithin(s: State, n: nat)
    requires n < |s.nodes|
  {
    forall m: Measure :: Hard(m) ==> AssignedUsage(s.deployments, n, m) <= Limit(s.nodes[n], m)
  }

  ghost predicate AssignedWithin(s: State) {
    forall n: nat :: n < |s.nodes| ==> NodeWithin(s, n)
  }

  predicate Located(s: State) {
    forall i: nat :: i < |s.deployments| && s.deployments[i].serveNode.Some? ==> s.deployments[i].serveNode.value < |s.nodes|
  }

  // --- What a step adds to a node --------------------------------------------------------------

  lemma AssignedShrinks(ds: seq<Deployment>, ds': seq<Deployment>, n: nat, m: Measure)
    requires |ds'| == |ds|
    requires forall i: nat :: i < |ds| ==> AssignedShare(ds'[i], n, m) <= AssignedShare(ds[i], n, m)
    ensures AssignedUsage(ds', n, m) <= AssignedUsage(ds, n, m)
  {
    SumMonotone(|ds|, AssignedTerm(ds', n, m), AssignedTerm(ds, n, m));
  }

  lemma RowReplaced(ds: seq<Deployment>, i: nat, d': Deployment, n: nat, m: Measure)
    requires i < |ds|
    ensures AssignedUsage(ds[i := d'], n, m) + AssignedShare(ds[i], n, m) == AssignedUsage(ds, n, m) + AssignedShare(d', n, m)
  {
    SumAt(|ds|, AssignedTerm(ds[i := d'], n, m), AssignedTerm(ds, n, m), i);
  }

  lemma RowAdded(ds: seq<Deployment>, d: Deployment, n: nat, m: Measure)
    ensures AssignedUsage(ds + [d], n, m) == AssignedUsage(ds, n, m) + AssignedShare(d, n, m)
  {
    SumEqual(|ds|, AssignedTerm(ds + [d], n, m), AssignedTerm(ds, n, m));
  }

  lemma AssignedAtMostScheduled(s: State, n: nat, m: Measure)
    ensures AssignedUsage(s.deployments, n, m) <= ScheduledUsage(s, n, m)
  {
    AssignedAtMostCommitted(s, n, m);
    CommittedAtMostScheduled(s, n, m);
  }

  // --- Cutovers ------------------------------------------------------------------------------------

  /** What a cutover of `job` takes along. */
  function MovedTerm(ds: seq<Deployment>, job: Job, m: Measure): nat -> nat {
    (i: nat) => if i < |ds| && i in job.rows && LiveOn(ds[i], job.node) then Weight(m, ds[i]) else 0
  }

  function MovedUsage(ds: seq<Deployment>, job: Job, m: Measure): nat {
    Sum(|ds|, MovedTerm(ds, job, m))
  }

  /** The target carries what it had and what was moved, the source what was not moved, and others what they had. */
  lemma SwitchedUsage(ds: seq<Deployment>, job: Job, n: nat, m: Measure)
    requires job.target.Some?
    ensures var after := AssignedUsage(Switched(ds, job), n, m);
            if job.target == Some(job.node) then after == AssignedUsage(ds, n, m)
            else if n == job.target.value then after == AssignedUsage(ds, n, m) + MovedUsage(ds, job, m)
            else if n == job.node then after + MovedUsage(ds, job, m) == AssignedUsage(ds, n, m)
            else after == AssignedUsage(ds, n, m)
  {
    var before, after, moved := AssignedTerm(ds, n, m), AssignedTerm(Switched(ds, job), n, m), MovedTerm(ds, job, m);
    if job.target == Some(job.node) || (n != job.target.value && n != job.node) {
      SumEqual(|ds|, after, before);
    } else if n == job.target.value {
      SumSplits(|ds|, before, moved, after);
    } else {
      SumSplits(|ds|, after, moved, before);
    }
  }

  /** In an orderly run a cutover moves everything that is assigned to the source. */
  lemma CutoverMovesAll(actions: seq<Action>, s: State, j: nat, m: Measure)
    requires Orderly(actions) && s == Run(actions) && j < |s.jobs| && Running(s.jobs[j])
    ensures MovedUsage(s.deployments, s.jobs[j], m) == AssignedUsage(s.deployments, s.jobs[j].node, m)
  {
    RunKeeps(actions);
    assert JobSound(s, s.jobs[j]);
    SumEqual(|s.deployments|, MovedTerm(s.deployments, s.jobs[j], m), AssignedTerm(s.deployments, s.jobs[j].node, m));
  }

  /** A cutover onto another node fits there, beside what the target holds by then. */
  ghost predicate CutoverFits(s: State, a: Action) {
    a.AProcessJob? && a.job < |s.jobs| && Switches(s, a.job, a.now) ==>
      var job := s.jobs[a.job];
      job.target.Some? && job.target.value < |s.nodes| && job.target.value != job.node ==>
        forall m: Measure :: Hard(m) ==>
          AssignedUsage(s.deployments, job.target.value, m) + MovedUsage(s.deployments, job, m) <= Limit(s.nodes[job.target.value], m)
  }

  lemma PassDecidesAssigned(s: State, a: Action)
    requires AssignedWithin(s) && a.AProcessJob? && a.job < |s.jobs|
    ensures AssignedWithin(Step(s, a)) <==> CutoverFits(s, a)
  {
    var s', job := Step(s, a), s.jobs[a.job];
    PassEffect(s, a.job, a.now, a.invalidArtifacts);
    if !Switches(s, a.job, a.now) || job.target.None? {
      assert s'.deployments == s.deployments;
      SameUsageKeeps(s, s');
      return;
    }
    var t := job.target.value;
    forall n: nat, m: Measure | n < |s.nodes| && Hard(m)
      ensures Limit(s'.nodes[n], m) == Limit(s.nodes[n], m)
      ensures n != t || t == job.node ==> AssignedUsage(s'.deployments, n, m) <= Limit(s'.nodes[n], m)
      ensures n == t && t != job.node ==>
                AssignedUsage(s'.deployments, n, m) == AssignedUsage(s.deployments, n, m) + MovedUsage(s.deployments, job, m)
    {
      assert NodeWithin(s, n);
      SwitchedUsage(s.deployments, job, n, m);
    }
    if AssignedWithin(s') && t < |s.nodes| { assert NodeWithin(s', t); }
  }

  /** Steps that change neither deployments nor capacities. */
  lemma SameUsageKeeps(s: State, s': State)
    requires AssignedWithin(s) && s'.deployments == s.deployments && |s'.nodes| == |s.nodes|
    requires forall n: nat :: n < |s.nodes| ==> s'.nodes[n].capacity == s.nodes[n].capacity
    ensures AssignedWithin(s')
  {
    forall n: nat | n < |s'.nodes| ensures NodeWithin(s', n) { assert NodeWithin(s, n); }
  }

  // --- Restarted builds --------------------------------------------------------------------------------

  /** A restarted build that had ended without success and still had its place takes up room again. */
  ghost predicate RestartFits(s: State, a: Action) {
    RestartsBuild(s, a) ==>
      var d := s.deployments[a.deployment];
      (d.build.BuildFailed? || d.build.BuildCanceled?) && !d.serve.Retired? && d.serveNode.Some? && d.serveNode.value < |s.nodes| ==>
        forall m: Measure :: Hard(m) ==>
          AssignedUsage(s.deployments, d.serveNode.value, m) + Weight(m, d) <= Limit(s.nodes[d.serveNode.value], m)
  }

  lemma RestartDecidesAssigned(s: State, a: Action, s': State)
    requires AssignedWithin(s) && RestartsBuild(s, a) && (a.build.Queued? || a.build.Building?)
    requires s' == SetRow(s, a.deployment, s.deployments[a.deployment].(build := a.build))
    ensures AssignedWithin(s') <==> RestartFits(s, a)
  {
    var d := s.deployments[a.deployment];
    var d' := d.(build := a.build);
    forall n: nat, m: Measure | n < |s.nodes| && Hard(m)
      ensures AssignedUsage(s'.deployments, n, m) + AssignedShare(d, n, m) == AssignedUsage(s.deployments, n, m) + AssignedShare(d', n, m)
      ensures AssignedUsage(s.deployments, n, m) <= Limit(s.nodes[n], m)
    {
      assert NodeWithin(s, n);
      RowReplaced(s.deployments, a.deployment, d', n, m);
    }
    if AssignedWithin(s') && d.serveNode.Some? && d.serveNode.value < |s.nodes| {
      var n := d.serveNode.value;
      assert NodeWithin(s', n);
      forall m: Measure | Hard(m) ensures !Live(d) && !d.serve.Retired? ==> AssignedUsage(s.deployments, n, m) + Weight(m, d) <= Limit(s.nodes[n], m) {
        assert AssignedUsage(s'.deployments, n, m) <= Limit(s'.nodes[n], m);
      }
    }
    if RestartFits(s, a) {
      forall n: nat, m: Measure | n < |s.nodes| && Hard(m) ensures AssignedUsage(s'.deployments, n, m) <= Limit(s.nodes[n], m) {
        if LiveOn(d', n) && !LiveOn(d, n) { assert !ActiveBuild(d); }
      }
    }
  }

  // --- Every other transaction ---------------------------------------------------------------------------

  lemma RecedingStaysWithin(s: State, s': State)
    requires AssignedWithin(s) && Recedes(s, s')
    ensures AssignedWithin(s')
  {
    forall n: nat, m: Measure | n < |s.nodes| && Hard(m) ensures AssignedUsage(s'.deployments, n, m) <= Limit(s.nodes[n], m) {
      assert NodeWithin(s, n);
      forall i: nat | i < |s.deployments| ensures AssignedShare(s'.deployments[i], n, m) <= AssignedShare(s.deployments[i], n, m) {
        assert RowRecedes(s.deployments[i], s'.deployments[i]);
      }
      AssignedShrinks(s.deployments, s'.deployments, n, m);
    }
  }

  lemma PlacingStaysWithin(s: State, s': State, i: nat)
    requires AssignedWithin(s) && Places(s, s', i)
    ensures AssignedWithin(s')
  {
    forall n: nat, m: Measure | n < |s.nodes| && Hard(m) ensures AssignedUsage(s'.deployments, n, m) <= Limit(s.nodes[n], m) {
      assert NodeWithin(s, n);
      RowReplaced(s.deployments, i, s'.deployments[i], n, m);
      AssignedAtMostScheduled(s, n, m);
    }
  }

  lemma CreatedStaysWithin(s: State, d: Deployment)
    requires AssignedWithin(s) && d.serveNode.Some? && HasRoom(s, d.serveNode.value, d.resources)
    ensures AssignedWithin(s.(deployments := s.deployments + [d]))
  {
    forall n: nat, m: Measure | n < |s.nodes| && Hard(m) ensures AssignedUsage(s.deployments + [d], n, m) <= Limit(s.nodes[n], m) {
      assert NodeWithin(s, n);
      RowAdded(s.deployments, d, n, m);
      AssignedAtMostScheduled(s, n, m);
    }
  }

  lemma CreatingStaysWithin(s: State, a: Action)
    requires AssignedWithin(s) && a.ACreate?
    ensures AssignedWithin(Step(s, a))
  {
    var d := CreateShape(s, a);
    if d.Some? {
      PlacementHasRoom(s, a.now, ServeResourcesFor(a.ssr), a.region_, a.selected, a.chosen.value);
      CreatedStaysWithin(s, d.value);
    }
  }

  /** The upload's own check is enough for what is assigned: the deployment changes size on its own node only. */
  lemma UploadStaysWithin(s: State, i: nat, disk: nat)
    requires AssignedWithin(s) && i < |s.deployments| && UploadArtifact(s, i, disk).Ok?
    ensures AssignedWithin(UploadArtifact(s, i, disk).value)
  {
    var d := s.deployments[i];
    var d' := d.(resources := d.resources.(disk := disk));
    forall n: nat, m: Measure | n < |s.nodes| && Hard(m)
      ensures AssignedUsage(UploadArtifact(s, i, disk).value.deployments, n, m) <= Limit(s.nodes[n], m)
    {
      assert NodeWithin(s, n);
      RowReplaced(s.deployments, i, d', n, m);
      SumHasTerm(|s.deployments|, AssignedTerm(s.deployments, n, m), i);
    }
  }

  lemma ClaimStaysWithin(s: State, i: nat, d': Deployment)
    requires AssignedWithin(s) && i < |s.deployments|
    requires Live(s.deployments[i]) && Live(d') && d'.serveNode == s.deployments[i].serveNode && d'.resources == s.deployments[i].resources
    ensures AssignedWithin(SetRow(s, i, d'))
  {
    forall n: nat, m: Measure | n < |s.nodes| && Hard(m) ensures AssignedUsage(s.deployments[i := d'], n, m) <= Limit(s.nodes[n], m) {
      assert NodeWithin(s, n);
      RowReplaced(s.deployments, i, d', n, m);
    }
  }

  lemma NewNodeIsEmpty(s: State, s': State)
    requires AssignedWithin(s) && Located(s) && s'.deployments == s.deployments
    requires |s'.nodes| >= |s.nodes| && forall n: nat :: n < |s.nodes| ==> s'.nodes[n].capacity == s.nodes[n].capacity
    ensures AssignedWithin(s')
  {
    forall n: nat, m: Measure | n < |s'.nodes| && Hard(m) ensures AssignedUsage(s'.deployments, n, m) <= Limit(s'.nodes[n], m) {
      if n < |s.nodes| { assert NodeWithin(s, n); } else { SumZero(|s.deployments|, AssignedTerm(s.deployments, n, m)); }
    }
  }

  lemma OddEffectDecidesAssigned(s: State, a: Action, s': State)
    requires AssignedWithin(s) && OnDeployment(a) && a.deployment < |s.deployments| && OddEffect(s, a, s')
    ensures AssignedWithin(s') <==> RestartFits(s, a)
  {
    if a.ABuildProgress? { RestartDecidesAssigned(s, a, s'); }
    else if a.AUpload? { UploadStaysWithin(s, a.deployment, a.disk); }
    else if a.AServeReport? { SameUsageKeeps(s, s'); }
    else if s.deployments[a.deployment].serve.Retired? { RetiredRowKeeps(s, a.deployment, s'.deployments[a.deployment]); }
    else { ClaimStaysWithin(s, a.deployment, s'.deployments[a.deployment]); }
  }

  lemma RetiredRowKeeps(s: State, i: nat, d': Deployment)
    requires AssignedWithin(s) && i < |s.deployments| && s.deployments[i].serve.Retired? && d'.serve.Retired?
    ensures AssignedWithin(SetRow(s, i, d'))
  {
    forall n: nat, m: Measure | n < |s.nodes| && Hard(m) ensures AssignedUsage(s.deployments[i := d'], n, m) <= Limit(s.nodes[n], m) {
      assert NodeWithin(s, n);
      RowReplaced(s.deployments, i, d', n, m);
    }
  }

  lemma DeliveryStaysWithin(s: State, i: nat, mid: State, s': State)
    requires AssignedWithin(s) && (mid == s || Places(s, mid, i)) && Recedes(mid, s')
    ensures AssignedWithin(s')
  {
    if mid != s { PlacingStaysWithin(s, mid, i); }
    RecedingStaysWithin(mid, s');
  }

  lemma DeploymentStepDecidesAssigned(s: State, a: Action, s': State)
    requires AssignedWithin(s) && OnDeployment(a) && a.deployment < |s.deployments| && DeploymentStep(s, a) == Ok(s')
    ensures AssignedWithin(s') <==> RestartFits(s, a)
  {
    var mid := DeploymentStepEffect(s, a, s');
    if PlainDelivery(s, a) { DeliveryStaysWithin(s, a.deployment, mid, s'); } else { OddEffectDecidesAssigned(s, a, s'); }
  }

  ghost predicate AssignmentFits(s: State, a: Action) {
    CutoverFits(s, a) && RestartFits(s, a)
  }

  /** One transaction keeps every node within its limits if and only if its cutover, or the build it restarts,
      fits. */
  lemma StepDecidesAssigned(s: State, a: Action)
    requires Located(s) && AssignedWithin(s)
    ensures AssignedWithin(Step(s, a)) <==> AssignmentFits(s, a)
  {
    if OnDeployment(a) {
      StepOnDeployment(s, a);
      if a.deployment < |s.deployments| && DeploymentStep(s, a).Ok? { DeploymentStepDecidesAssigned(s, a, DeploymentStep(s, a).value); }
      else if RestartsBuild(s, a) { RestartCommits(s, a); }
    } else if a.AProcessJob? {
      if a.job < |s.jobs| { PassDecidesAssigned(s, a); }
    } else if a.ACreate? {
      CreatingStaysWithin(s, a);
    } else {
      StepBesideDeployments(s, a);
      NewNodeIsEmpty(s, Step(s, a));
    }
  }

  lemma DeploymentStepKeepsLocated(s: State, a: Action, s': State)
    requires Located(s) && OnDeployment(a) && a.deployment < |s.deployments| && DeploymentStep(s, a) == Ok(s')
    ensures Located(s')
  {
    var mid := DeploymentStepEffect(s, a, s');
    if PlainDelivery(s, a) { DeliveryKeepsLocated(s, a.deployment, mid, s'); }
  }

  lemma DeliveryKeepsLocated(s: State, i: nat, mid: State, s': State)
    requires Located(s) && (mid == s || Places(s, mid, i)) && Recedes(mid, s')
    ensures Located(s')
  {
    forall k: nat | k < |mid.deployments| && s'.deployments[k].serveNode.Some? ensures s'.deployments[k].serveNode.value < |s'.nodes| {
      assert RowRecedes(mid.deployments[k], s'.deployments[k]);
    }
  }

  lemma PassKeepsLocated(s: State, a: Action)
    requires Located(s) && a.AProcessJob?
    ensures Located(Step(s, a))
  {
    if a.job < |s.jobs| { PassEffect(s, a.job, a.now, a.invalidArtifacts); }
  }

  lemma StepKeepsLocated(s: State, a: Action)
    requires Located(s)
    ensures Located(Step(s, a))
  {
    if OnDeployment(a) {
      StepOnDeployment(s, a);
      if a.deployment < |s.deployments| && DeploymentStep(s, a).Ok? { DeploymentStepKeepsLocated(s, a, DeploymentStep(s, a).value); }
    } else if a.AProcessJob? {
      PassKeepsLocated(s, a);
    } else if a.ACreate? {
      CreateKeepsLocated(s, a);
    } else {
      StepBesideDeployments(s, a);
    }
  }

  lemma CreateKeepsLocated(s: State, a: Action)
    requires Located(s) && a.ACreate?
    ensures Located(Step(s, a))
  {
    var d := CreateShape(s, a);
    if d.Some? { PlacementHasRoom(s, a.now, ServeResourcesFor(a.ssr), a.region_, a.selected, a.chosen.value); }
  }

  // --- Every run -------------------------------------------------------------------------------------------

  lemma {:induction false} RunKeepsLocated(actions: seq<Action>)
    ensures Located(Run(actions))
  {
    if actions != [] {
      RunKeepsLocated(actions[..|actions| - 1]);
      RunEnds(actions);
      StepKeepsLocated(Run(actions[..|actions| - 1]), actions[|actions| - 1]);
    }
  }

  ghost predicate AssignmentsFit(actions: seq<Action>) {
    forall k: nat :: k < |actions| ==> AssignmentFits(Run(actions[..k]), actions[k])
  }

  /** What is assigned to each node needs no more disk than it has and exceeds its limit by two at most, in every
      state of a run, if and only if every cutover fitted its target and every restarted build its node. */
  lemma AssignedThroughout(actions: seq<Action>)
    ensures (forall k: nat :: k <= |actions| ==> AssignedWithin(Run(actions[..k]))) <==> AssignmentsFit(actions)
  {
    if forall k: nat :: k <= |actions| ==> AssignedWithin(Run(actions[..k])) {
      forall k: nat | k < |actions| ensures AssignmentFits(Run(actions[..k]), actions[k]) {
        RunPrefix(actions, k);
        RunKeepsLocated(actions[..k]);
        assert AssignedWithin(Run(actions[..k])) && AssignedWithin(Run(actions[..k + 1]));
        StepDecidesAssigned(Run(actions[..k]), actions[k]);
      }
    }
    if AssignmentsFit(actions) {
      forall k: nat | k <= |actions| ensures AssignedWithin(Run(actions[..k])) { AssignedAfter(actions, k); }
    }
  }

  lemma {:induction false} AssignedAfter(actions: seq<Action>, k: nat)
    requires AssignmentsFit(actions) && k <= |actions|
    ensures AssignedWithin(Run(actions[..k]))
  {
    if k > 0 {
      AssignedAfter(actions, k - 1);
      RunPrefix(actions, k - 1);
      RunKeepsLocated(actions[..k - 1]);
      assert AssignmentFits(Run(actions[..k - 1]), actions[k - 1]);
      FittingStepStaysWithin(Run(actions[..k - 1]), actions[k - 1], Run(actions[..k]));
    }
  }

  lemma FittingStepStaysWithin(s: State, a: Action, s': State)
    requires Located(s) && AssignedWithin(s) && AssignmentFits(s, a) && s' == Step(s, a)
    ensures AssignedWithin(s')
  {
    StepDecidesAssigned(s, a);
  }
}
