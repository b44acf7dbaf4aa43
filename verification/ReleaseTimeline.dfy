/** The release table is a timeline: its last row of a project environment names the Active deployment,
    and each row names the one it replaced. */
module ReleaseTimeline {
  import opened Basics
  import opened Lifecycle
  import opened Scheduler
  import opened Delivery
  import opened ControlPlane
  import opened ReleaseInvariants

  /** The deployment of the last release row of a project environment. */
  function LastRelease(releases: seq<Release>, project: nat, environment: Environment): Option<nat> {
    if releases == [] then None
    else
      var last := releases[|releases| - 1];
      if last.project == project && last.environment == environment then Some(last.deployment)
      else LastRelease(releases[..|releases| - 1], project, environment)
  }

  /** Row `k` replaced nothing, or the deployment of the row before it in its environment. */
  predicate Linked(releases: seq<Release>, k: nat)
    requires k < |releases|
  {
    var r := releases[k];
    r.previous.Some? ==> r.previous == LastRelease(releases[..k], r.project, r.environment)
  }

  ghost predicate TimelineInvariant(s: State) {
    && (forall k: nat :: k < |s.releases| ==> Linked(s.releases, k))
    && (forall i: nat :: i < |s.deployments| && s.deployments[i].release.Active?
          ==> LastRelease(s.releases, s.deployments[i].project, s.deployments[i].environment) == Some(i))
  }

  /** No release row is written and nothing becomes Active. */
  ghost predicate Quiet(s: State, s': State) {
    && s'.releases == s.releases && |s.deployments| <= |s'.deployments|
    && (forall i: nat :: i < |s.deployments| ==>
          && SameEnvironment(s'.deployments[i], s.deployments[i])
          && (s'.deployments[i].release.Active? ==> s.deployments[i].release.Active?))
    && (forall i: nat :: |s.deployments| <= i < |s'.deployments| ==> !s'.deployments[i].release.Active?)
  }

  lemma QuietKeeps(s: State, s': State)
    requires TimelineInvariant(s) && Quiet(s, s')
    ensures TimelineInvariant(s')
  {
  }

  lemma ReconcileIsQuiet(s: State, i: nat)
    requires i < |s.deployments|
    ensures Quiet(s, ReconcileAround(s, i))
  {
  }

  lemma RowThenReconcile(s: State, i: nat, d': Deployment)
    requires TimelineInvariant(s) && i < |s.deployments| && SameEnvironment(d', s.deployments[i])
    requires d'.release == s.deployments[i].release
    ensures TimelineInvariant(ReconcileAround(SetRow(s, i, d'), i))
  {
    var updated := SetRow(s, i, d');
    QuietKeeps(s, updated);
    ReconcileIsQuiet(updated, i);
    QuietKeeps(updated, ReconcileAround(updated, i));
  }

  lemma ActivateWrites(s: State, i: nat, reason: ReleaseReason)
    requires TimelineInvariant(s) && i < |s.deployments| && Activate(s, i, reason).Ok?
    ensures TimelineInvariant(Activate(s, i, reason).value)
  {
    var s' := Activate(s, i, reason).value;
    var d := s.deployments[i];
    assert OneActivePerEnvironment(s.deployments);
    ActivateExactly(s, i, reason);
    var row := s'.releases[|s.releases|];
    assert s'.releases == s.releases + [row];
    assert s'.releases[..|s.releases|] == s.releases;
    forall k: nat | k < |s'.releases| ensures Linked(s'.releases, k) {
      if k < |s.releases| {
        assert Linked(s.releases, k);
        assert s'.releases[..k] == s.releases[..k];
      }
    }
  }

  /** A commit that activates at most one deployment, after quiet changes and before others. */
  lemma RequestReleaseWrites(s: State, i: nat, reason: ReleaseReason, chosen: Option<Placement>, now: int)
    requires TimelineInvariant(s) && i < |s.deployments|
    requires RequestRelease(s, i, reason, chosen, now).Ok?
    ensures TimelineInvariant(RequestRelease(s, i, reason, chosen, now).value)
  {
    var d := s.deployments[i];
    if d.serveNode.Some? && d.serve.ServeReady? {
      ActivateWrites(s, i, reason);
      var activated := Activate(s, i, reason).value;
      ReconcileIsQuiet(activated, i);
      QuietKeeps(activated, ReconcileAround(activated, i));
    } else if d.serveNode.None? || d.serve.Retired? {
      RowThenReconcile(s, i, Placed(d, chosen.value).(pending := Some(reason)));
    } else {
      RowThenReconcile(s, i, d.(pending := Some(reason)));
    }
  }

  lemma CompletePendingWrites(s: State, i: nat)
    requires TimelineInvariant(s) && i < |s.deployments| && CompletePendingRelease(s, i).Ok?
    ensures TimelineInvariant(CompletePendingRelease(s, i).value)
  {
    var d := s.deployments[i];
    if d.pending.Some? && d.serve.ServeReady? {
      ActivateWrites(s, i, d.pending.value);
      QuietKeeps(Activate(s, i, d.pending.value).value, CompletePendingRelease(s, i).value);
    }
  }

  lemma ServeReportWrites(s: State, i: nat, n: nat, capable: bool, status: ServeStatus, job: Option<nat>, mode: ReviewMode)
    requires TimelineInvariant(s) && i < |s.deployments|
    requires ReportServeStatus(s, i, n, capable, status, job, mode).Ok?
    ensures TimelineInvariant(ReportServeStatus(s, i, n, capable, status, job, mode).value)
  {
    var d := s.deployments[i];
    if d.serveNode == Some(n) {
      var served := SetRow(s, i, TransitionServe(d, status).value);
      QuietKeeps(s, served);
      if status.ServeReady? { CompleteServeReadyWrites(served, i, mode); }
    }
  }

  lemma CompleteServeReadyWrites(s: State, i: nat, mode: ReviewMode)
    requires TimelineInvariant(s) && i < |s.deployments| && CompleteServeReady(s, i, mode).Ok?
    ensures TimelineInvariant(CompleteServeReady(s, i, mode).value)
  {
    var d := s.deployments[i];
    var s' := CompleteServeReady(s, i, mode).value;
    if d.pending.Some? {
      CompletePendingWrites(s, i);
      QuietKeeps(CompletePendingRelease(s, i).value, s');
    } else if mode.AutoReview? && d.release.Draft? {
      ActivateWrites(s, i, Auto);
      QuietKeeps(Activate(s, i, Auto).value, s');
    } else {
      QuietKeeps(s, s');
    }
  }

  lemma ReviewWrites(s: State, i: nat, chosen: Option<Placement>, now: int)
    requires TimelineInvariant(s) && i < |s.deployments| && ResolveReview(s, i, true, chosen, now).Ok?
    ensures TimelineInvariant(ResolveReview(s, i, true, chosen, now).value)
  {
    var changed := ChangeRelease(s, i, Approved).value;
    var approved := changed.(history := changed.history + [ReviewApproved(i)]);
    QuietKeeps(s, approved);
    RequestReleaseWrites(approved, i, Promote, chosen, now);
  }

  lemma RepublishWrites(s: State, i: nat, mode: ReviewMode, chosen: Option<Placement>, now: int)
    requires TimelineInvariant(s) && i < |s.deployments| && Republish(s, i, mode, chosen, now).Ok?
    ensures TimelineInvariant(Republish(s, i, mode, chosen, now).value)
  {
    var d := s.deployments[i];
    if mode.ManualReview? && !d.release.Approved? {
      QuietKeeps(s, Republish(s, i, mode, chosen, now).value);
    } else if d.release.Rejected? {
      var resubmitted := ChangeRelease(s, i, PendingReview).value;
      var approved := ChangeRelease(resubmitted, i, Approved).value;
      QuietKeeps(s, approved);
      RequestReleaseWrites(approved, i, Promote, chosen, now);
    } else {
      RequestReleaseWrites(s, i, Promote, chosen, now);
    }
  }

  lemma DeploymentStepWrites(s: State, a: Action)
    requires TimelineInvariant(s)
    requires OnDeployment(a) && a.deployment < |s.deployments| && DeploymentStep(s, a).Ok?
    ensures TimelineInvariant(DeploymentStep(s, a).value)
  {
    var s' := DeploymentStep(s, a).value;
    if a.AServeReport? {
      ServeReportWrites(s, a.deployment, a.node, a.capable, a.serve, a.job_, a.mode);
    } else if a.AActivate? && !(a.seenRelease.Draft? && a.mode.ManualReview?) {
      RequestReleaseWrites(s, a.deployment, a.reason, a.chosen, a.now);
    } else if a.AReview? && a.approved {
      ReviewWrites(s, a.deployment, a.chosen, a.now);
    } else if a.ARepublish? {
      RepublishWrites(s, a.deployment, a.mode, a.chosen, a.now);
    } else {
      OtherStepsAreQuiet(s, a);
      QuietKeeps(s, s');
    }
  }

  /** Builds, withdrawals, rejections, submissions and uploads write no release row and activate nothing. */
  lemma OtherStepsAreQuiet(s: State, a: Action)
    requires OnDeployment(a) && a.deployment < |s.deployments| && DeploymentStep(s, a).Ok?
    requires !a.AServeReport? && !a.ARepublish?
    requires a.AActivate? ==> a.seenRelease.Draft? && a.mode.ManualReview?
    requires a.AReview? ==> !a.approved
    ensures Quiet(s, DeploymentStep(s, a).value)
  {
    if a.AFinalizeReady? {
      FinalizeIsQuiet(s, a.deployment, a.mode);
    } else if a.ARemovePublication? {
      RemovalIsQuiet(s, a.deployment, a.kind);
    } else if a.AUnsuccessful? {
      var stopped := SetRow(s, a.deployment, TransitionBuild(s.deployments[a.deployment], a.build).value);
      ReconcileIsQuiet(stopped, a.deployment);
      QuietChain(s, stopped, ReconcileAround(stopped, a.deployment));
    }
  }

  lemma QuietChain(s: State, mid: State, s': State)
    requires Quiet(s, mid) && Quiet(mid, s')
    ensures Quiet(s, s')
  {
  }

  lemma FinalizeIsQuiet(s: State, i: nat, mode: ReviewMode)
    requires i < |s.deployments| && FinalizeReady(s, i, mode).Ok?
    ensures Quiet(s, FinalizeReady(s, i, mode).value)
  {
    var ready := SetRow(s, i, s.deployments[i].(build := BuildReady));
    var settled := if mode.ManualReview? && ready.deployments[i].release.Draft? then ChangeRelease(ready, i, PendingReview).value else ready;
    assert FinalizeReady(s, i, mode).value == ReconcileAround(settled, i);
    assert Quiet(s, settled);
    ReconcileIsQuiet(settled, i);
    QuietChain(s, settled, ReconcileAround(settled, i));
  }

  lemma RemovalIsQuiet(s: State, i: nat, kind: PublicationRemovalKind)
    requires i < |s.deployments| && RemovePublication(s, i, kind).Ok?
    ensures Quiet(s, RemovePublication(s, i, kind).value)
  {
    var d := s.deployments[i];
    if !(d.release == PublicationRemovalTarget(kind) && d.serve.Retired?) {
      var changed := ChangeRelease(s, i, PublicationRemovalTarget(kind)).value;
      var removed := SetRow(changed, i, Unassigned(changed.deployments[i]).(pending := None));
      assert Quiet(s, removed);
      ReconcileIsQuiet(removed, i);
      QuietChain(s, removed, ReconcileAround(removed, i));
    }
  }

  lemma StepKeepsTimeline(s: State, a: Action)
    requires TimelineInvariant(s)
    ensures TimelineInvariant(Step(s, a))
  {
    if OnDeployment(a) {
      StepOnDeployment(s, a);
      if a.deployment < |s.deployments| && DeploymentStep(s, a).Ok? { DeploymentStepWrites(s, a); }
    } else {
      SystemStepIsQuiet(s, a);
      QuietKeeps(s, Step(s, a));
    }
  }

  lemma SystemStepIsQuiet(s: State, a: Action)
    requires !OnDeployment(a)
    ensures Quiet(s, Step(s, a))
  {
    if a.AProcessJob? {
      if a.job < |s.jobs| { ProcessJobRows(s, a.job, a.now, a.invalidArtifacts); }
    }
  }

  lemma {:induction false} RunKeepsTimeline(actions: seq<Action>)
    ensures TimelineInvariant(Run(actions))
  {
    if actions != [] {
      var before := actions[..|actions| - 1];
      RunKeepsTimeline(before);
      RunEnds(actions);
      StepKeepsTimeline(Run(before), actions[|actions| - 1]);
    }
  }

  /** In every reachable state the release rows of an environment are a linked timeline that ends at its
      Active deployment, if there is one: a row names, if anything, the deployment of the row before it. */
  lemma ReleasesAreATimeline(actions: seq<Action>, k: nat)
    ensures var s := Run(actions);
            && (k < |s.releases| && s.releases[k].previous.Some? ==>
                  s.releases[k].previous == LastRelease(s.releases[..k], s.releases[k].project, s.releases[k].environment))
            && (k < |s.deployments| && s.deployments[k].release.Active? ==>
                  LastRelease(s.releases, s.deployments[k].project, s.deployments[k].environment) == Some(k))
  {
    RunKeepsTimeline(actions);
    var s := Run(actions);
    assert k < |s.releases| ==> Linked(s.releases, k);
  }
}
