/** What a delivery transaction can do to the assignment of deployments to nodes: at most one
    deployment gains a place the scheduler granted, and otherwise assignments only recede. */
module Effects {
  import opened Basics
  import opened Lifecycle
  import opened Scheduler
  import opened Delivery
  import opened ControlPlane

  predicate ActiveBuild(d: Deployment) {
    d.build.Claimed? || d.build.Queued? || d.build.Building?
  }

  /** The row holds no assignment and no build that it did not hold before. */
  predicate RowRecedes(d: Deployment, d': Deployment) {
    && d'.resources == d.resources
    && (d'.serveNode == d.serveNode || d'.serveNode.None?)
    && (Live(d') ==> Live(d) && d'.serveNode == d.serveNode)
    && (ActiveBuild(d') ==> ActiveBuild(d) && d'.buildNode == d.buildNode)
  }

  ghost predicate Recedes(s: State, s': State) {
    && s'.nodes == s.nodes && s'.jobs == s.jobs && |s'.deployments| == |s.deployments|
    && forall i: nat :: i < |s.deployments| ==> RowRecedes(s.deployments[i], s'.deployments[i])
  }

  /** Node `n` can take a deployment with these resources, counting assignments and reservations. */
  predicate HasRoom(s: State, n: nat, r: ServeResources) {
    && n < |s.nodes| && !s.nodes[n].deleted && s.nodes[n].status.NodeActive?
    && ScheduledUsage(s, n, Disk) + r.disk <= s.nodes[n].capacity.disk
    && ScheduledUsage(s, n, Slots) + 1 <= s.nodes[n].capacity.maxDeployments + OVERFLOW_SLOTS
  }

  /** Deployment `i`, which held no assignment, gets one on a node with room. */
  predicate Places(s: State, s': State, i: nat) {
    && i < |s.deployments| && |s'.deployments| == |s.deployments|
    && s' == SetRow(s, i, s'.deployments[i])
    && var d, d' := s.deployments[i], s'.deployments[i];
    && !(Live(d) && d.serveNode.Some?)
    && d'.resources == d.resources && d'.build == d.build && d'.buildNode == d.buildNode
    && d'.serveNode.Some? && HasRoom(s, d'.serveNode.value, d.resources)
  }

  lemma PlacementHasRoom(s: State, now: int, r: ServeResources, region: Option<string>, selected: Option<nat>, p: Placement)
    requires PlacementIsPossible(s, now, r, region, selected, p)
    ensures HasRoom(s, p.nodeId, r)
  {
    var candidates := EligibleCandidates(s, now);
    PlacementRespectsCapacity(p, candidates, r, region, selected);
    var c :| c in candidates && c.nodeId == p.nodeId
             && c.usage.disk + r.disk <= c.capacity.disk
             && c.usage.deployments + 1 <= c.capacity.maxDeployments + OVERFLOW_SLOTS;
    assert c == CandidateFor(s, p.nodeId);
  }

  lemma ReconcileRecedes(s: State, project: nat, environment: Environment)
    ensures Recedes(s, Reconcile(s, project, environment))
  {
  }

  lemma ActivateRecedes(s: State, i: nat, reason: ReleaseReason)
    requires i < |s.deployments| && Activate(s, i, reason).Ok?
    ensures Recedes(s, Activate(s, i, reason).value)
  {
    var previous := FindActive(s.deployments, |s.deployments|, i);
    if previous.Some? {
      var demoted := ChangeRelease(s, previous.value, Approved);
      assert Recedes(s, demoted.value);
    }
  }

  /** Queuing a release places its deployment or changes no assignment. */
  lemma QueueEffect(s: State, i: nat, reason: ReleaseReason, chosen: Option<Placement>, now: int)
    requires i < |s.deployments|
    requires var d := s.deployments[i];
             d.serveNode.None? || d.serve.Retired? ==>
               chosen.Some? && PlacementIsPossible(s, now, d.resources, Some(d.region), None, chosen.value)
    ensures var d := s.deployments[i];
            var queued := SetRow(s, i, QueuedRow(d, reason, chosen));
            if d.serveNode.None? || d.serve.Retired? then Places(s, queued, i) else Recedes(s, queued)
  {
    var d := s.deployments[i];
    if d.serveNode.None? || d.serve.Retired? {
      PlacementHasRoom(s, now, d.resources, Some(d.region), None, chosen.value);
    }
  }

  /** A release request places at most its own deployment. */
  lemma RequestReleaseEffect(s: State, i: nat, reason: ReleaseReason, chosen: Option<Placement>, now: int) returns (mid: State)
    requires i < |s.deployments| && RequestRelease(s, i, reason, chosen, now).Ok?
    ensures mid == s || Places(s, mid, i)
    ensures Recedes(mid, RequestRelease(s, i, reason, chosen, now).value)
  {
    var d := s.deployments[i];
    var settled := RequestShape(s, i, reason, chosen, now);
    mid := if !(d.serveNode.Some? && d.serve.ServeReady?) && (d.serveNode.None? || d.serve.Retired?) then settled else s;
    if d.serveNode.Some? && d.serve.ServeReady? { ActivateRecedes(s, i, reason); } else { QueueEffect(s, i, reason, chosen, now); }
    ReconcileRecedes(settled, settled.deployments[i].project, settled.deployments[i].environment);
    if mid == s { RecedesChain(s, settled, ReconcileAround(settled, i)); }
  }

  lemma CompletePendingRecedes(s: State, i: nat)
    requires i < |s.deployments| && CompletePendingRelease(s, i).Ok?
    ensures Recedes(s, CompletePendingRelease(s, i).value)
  {
    var d := s.deployments[i];
    if d.pending.Some? && d.serve.ServeReady? {
      ActivateRecedes(s, i, d.pending.value);
      var activated := Activate(s, i, d.pending.value).value;
      ReconcileRecedes(SetRow(activated, i, activated.deployments[i].(pending := None)), d.project, d.environment);
    }
  }

  lemma CompleteServeReadyRecedes(s: State, i: nat, mode: ReviewMode)
    requires i < |s.deployments| && CompleteServeReady(s, i, mode).Ok?
    ensures Recedes(s, CompleteServeReady(s, i, mode).value)
  {
    var d := s.deployments[i];
    if d.pending.Some? {
      CompletePendingRecedes(s, i);
    } else if mode.AutoReview? && d.release.Draft? {
      ActivateRecedes(s, i, Auto);
    }
  }

  /** A build report that was checked against a running build but is written over one that is not running: it
      was overtaken by the end of the build. */
  predicate RestartsBuild(s: State, a: Action) {
    && a.ABuildProgress? && a.deployment < |s.deployments| && ReportBuildProgress(s, a.deployment, a.seenBuild, a.build).Ok?
    && !ActiveBuild(s.deployments[a.deployment])
  }

  lemma RestartCommits(s: State, a: Action)
    requires RestartsBuild(s, a)
    ensures DeploymentStep(s, a).Ok?
  {
  }

  /** The transactions on one deployment that neither claim or restart a build, upload an artifact, nor come
      from a shadow target. */
  predicate PlainDelivery(s: State, a: Action) {
    && OnDeployment(a) && a.deployment < |s.deployments| && !a.AClaim? && !a.AUpload? && !RestartsBuild(s, a)
    && (a.AServeReport? ==> s.deployments[a.deployment].serveNode == Some(a.node))
  }

  lemma DeliveryEffect(s: State, a: Action) returns (mid: State)
    requires PlainDelivery(s, a) && DeploymentStep(s, a).Ok?
    ensures mid == s || Places(s, mid, a.deployment)
    ensures Recedes(mid, DeploymentStep(s, a).value)
  {
    mid := s;
    if a.AActivate? {
      mid := ActivateDeploymentEffect(s, a.deployment, a.seenReady, a.seenRelease, a.reason, a.mode, a.chosen, a.now);
    } else if a.AReview? {
      mid := ResolveReviewEffect(s, a.deployment, a.approved, a.chosen, a.now);
    } else if a.ARepublish? {
      mid := RepublishEffect(s, a.deployment, a.mode, a.chosen, a.now);
    } else if a.AServeReport? {
      ServeReportRecedes(s, a.deployment, a.node, a.capable, a.serve, a.job_, a.mode);
    } else if a.ARemovePublication? {
      RemovalRecedes(s, a.deployment, a.kind);
    } else {
      BuildRecedes(s, a);
    }
  }

  /** What every other transaction on one deployment does: it changes one row, or one row of one job. */
  ghost predicate OddEffect(s: State, a: Action, s': State)
    requires OnDeployment(a) && a.deployment < |s.deployments|
  {
    var i, d := a.deployment, s.deployments[a.deployment];
    match a
    case AClaim(_, n) =>
      && n < |s.nodes| && !s.nodes[n].deleted && s.nodes[n].status.NodeActive? && d.build.BuildPending?
      && s' == SetRow(s, i, d.(build := Claimed, buildNode := Some(n)))
    case AUpload(_, disk) => UploadArtifact(s, i, disk) == Ok(s') && s' == SetRow(s, i, d.(resources := d.resources.(disk := disk)))
    case ABuildProgress(_, _, to) => RestartsBuild(s, a) && (to.Queued? || to.Building?) && s' == SetRow(s, i, d.(build := to))
    case AServeReport(_, n, _, status, job, _) =>
      && d.serveNode != Some(n) && job.Some? && job.value < |s.jobs| && ShadowRow(s.jobs[job.value], n, i)
      && s' == s.(jobs := s.jobs[job.value := s.jobs[job.value].(rows := s.jobs[job.value].rows[i := RowFor(status)])])
    case _ => false
  }

  lemma ClaimEffect(s: State, i: nat, n: nat, s': State)
    requires i < |s.deployments| && ClaimBuild(s, i, n) == Ok(s')
    ensures OddEffect(s, AClaim(i, n), s')
  {
  }

  lemma ShadowEffect(s: State, a: Action, s': State)
    requires a.AServeReport? && a.deployment < |s.deployments| && s.deployments[a.deployment].serveNode != Some(a.node)
    requires ReportServeStatus(s, a.deployment, a.node, a.capable, a.serve, a.job_, a.mode) == Ok(s')
    ensures OddEffect(s, a, s')
  {
  }

  /** Every transaction on one deployment is one or the other. */
  lemma DeploymentStepEffect(s: State, a: Action, s': State) returns (mid: State)
    requires OnDeployment(a) && a.deployment < |s.deployments| && DeploymentStep(s, a) == Ok(s')
    ensures PlainDelivery(s, a) ==> (mid == s || Places(s, mid, a.deployment)) && Recedes(mid, s')
    ensures !PlainDelivery(s, a) ==> OddEffect(s, a, s')
  {
    mid := s;
    if PlainDelivery(s, a) { mid := DeliveryEffect(s, a); }
    else if a.AClaim? { ClaimEffect(s, a.deployment, a.node, s'); }
    else if a.AServeReport? { ShadowEffect(s, a, s'); }
  }

  lemma ActivateDeploymentEffect(s: State, i: nat, seenReady: bool, seen: ReleaseStatus, reason: ReleaseReason, mode: ReviewMode,
                                 chosen: Option<Placement>, now: int)
    returns (mid: State)
    requires i < |s.deployments| && ActivateDeployment(s, i, seenReady, seen, reason, mode, chosen, now).Ok?
    ensures mid == s || Places(s, mid, i)
    ensures Recedes(mid, ActivateDeployment(s, i, seenReady, seen, reason, mode, chosen, now).value)
  {
    if seen.Draft? && mode.ManualReview? {
      mid := s;
    } else {
      mid := RequestReleaseEffect(s, i, reason, chosen, now);
    }
  }

  lemma ResolveReviewEffect(s: State, i: nat, approved: bool, chosen: Option<Placement>, now: int) returns (mid: State)
    requires i < |s.deployments| && ResolveReview(s, i, approved, chosen, now).Ok?
    ensures mid == s || Places(s, mid, i)
    ensures Recedes(mid, ResolveReview(s, i, approved, chosen, now).value)
  {
    mid := s;
    if approved {
      var changed := ChangeRelease(s, i, Approved).value;
      mid := ApprovedThenRequested(s, changed.(history := changed.history + [ReviewApproved(i)]), i, chosen, now);
    }
  }

  lemma RepublishEffect(s: State, i: nat, mode: ReviewMode, chosen: Option<Placement>, now: int) returns (mid: State)
    requires i < |s.deployments| && Republish(s, i, mode, chosen, now).Ok?
    ensures mid == s || Places(s, mid, i)
    ensures Recedes(mid, Republish(s, i, mode, chosen, now).value)
  {
    mid := s;
    var d := s.deployments[i];
    if mode.ManualReview? && !d.release.Approved? {
    } else if d.release.Rejected? {
      var resubmitted := ChangeRelease(s, i, PendingReview).value;
      mid := ApprovedThenRequested(s, ChangeRelease(resubmitted, i, Approved).value, i, chosen, now);
    } else {
      mid := RequestReleaseEffect(s, i, Promote, chosen, now);
    }
  }

  lemma ServeReportRecedes(s: State, i: nat, n: nat, capable: bool, status: ServeStatus, job: Option<nat>, mode: ReviewMode)
    requires i < |s.deployments| && s.deployments[i].serveNode == Some(n)
    requires ReportServeStatus(s, i, n, capable, status, job, mode).Ok?
    ensures Recedes(s, ReportServeStatus(s, i, n, capable, status, job, mode).value)
  {
    var served := SetRow(s, i, TransitionServe(s.deployments[i], status).value);
    assert Recedes(s, served);
    if status.ServeReady? { CompleteServeReadyRecedes(served, i, mode); }
  }

  lemma RemovalRecedes(s: State, i: nat, kind: PublicationRemovalKind)
    requires i < |s.deployments| && RemovePublication(s, i, kind).Ok?
    ensures Recedes(s, RemovePublication(s, i, kind).value)
  {
    var d := s.deployments[i];
    if !(d.release == PublicationRemovalTarget(kind) && d.serve.Retired?) {
      var changed := ChangeRelease(s, i, PublicationRemovalTarget(kind)).value;
      ReconcileRecedes(SetRow(changed, i, Unassigned(changed.deployments[i]).(pending := None)), d.project, d.environment);
    }
  }

  lemma BuildRecedes(s: State, a: Action)
    requires a.AFinalizeReady? || a.AUnsuccessful? || a.ABuildProgress?
    requires a.deployment < |s.deployments| && DeploymentStep(s, a).Ok? && !RestartsBuild(s, a)
    ensures Recedes(s, DeploymentStep(s, a).value)
  {
    if a.AFinalizeReady? { FinalizeRecedes(s, a.deployment, a.mode); }
    else if a.AUnsuccessful? { UnsuccessfulRecedes(s, a.deployment, a.build); }
  }

  lemma RecedesChain(s: State, mid: State, s': State)
    requires Recedes(s, mid) && Recedes(mid, s')
    ensures Recedes(s, s')
  {
    forall i: nat | i < |s.deployments| ensures RowRecedes(s.deployments[i], s'.deployments[i]) {
      assert RowRecedes(s.deployments[i], mid.deployments[i]) && RowRecedes(mid.deployments[i], s'.deployments[i]);
    }
  }

  lemma FinalizeRecedes(s: State, i: nat, mode: ReviewMode)
    requires i < |s.deployments| && FinalizeReady(s, i, mode).Ok?
    ensures Recedes(s, FinalizeReady(s, i, mode).value)
  {
    var d := s.deployments[i];
    var ready := SetRow(s, i, d.(build := BuildReady));
    var settled := if mode.ManualReview? && d.release.Draft? then ChangeRelease(ready, i, PendingReview).value else ready;
    assert FinalizeReady(s, i, mode).value == ReconcileAround(settled, i);
    assert Recedes(s, settled);
    ReconcileRecedes(settled, settled.deployments[i].project, settled.deployments[i].environment);
    RecedesChain(s, settled, ReconcileAround(settled, i));
  }

  lemma UnsuccessfulRecedes(s: State, i: nat, to: BuildStatus)
    requires i < |s.deployments| && TransitionUnsuccessfulBuild(s, i, to).Ok?
    ensures Recedes(s, TransitionUnsuccessfulBuild(s, i, to).value)
  {
    var stopped := SetRow(s, i, TransitionBuild(s.deployments[i], to).value);
    assert Recedes(s, stopped);
    ReconcileRecedes(stopped, stopped.deployments[i].project, stopped.deployments[i].environment);
    RecedesChain(s, stopped, ReconcileAround(stopped, i));
  }

  /** Approving first and requesting the release afterwards places at most the same deployment. */
  lemma ApprovedThenRequested(s: State, approved: State, i: nat, chosen: Option<Placement>, now: int) returns (mid: State)
    requires i < |s.deployments| && |approved.deployments| == |s.deployments|
    requires approved.nodes == s.nodes && approved.jobs == s.jobs
    requires approved.deployments == s.deployments[i := s.deployments[i].(release := Approved)]
    requires RequestRelease(approved, i, Promote, chosen, now).Ok?
    ensures mid == s || Places(s, mid, i)
    ensures Recedes(mid, RequestRelease(approved, i, Promote, chosen, now).value)
  {
    var placed := RequestReleaseEffect(approved, i, Promote, chosen, now);
    if placed == approved {
      mid := s;
    } else {
      mid := SetRow(s, i, placed.deployments[i]);
      forall n: nat, m: Measure ensures ScheduledUsage(s, n, m) == ScheduledUsage(approved, n, m) {
        UsageIgnoresRelease(s, approved, i, n, m);
      }
    }
  }

  lemma UsageIgnoresRelease(s: State, s': State, i: nat, n: nat, m: Measure)
    requires i < |s.deployments| && s'.jobs == s.jobs
    requires s'.deployments == s.deployments[i := s.deployments[i].(release := Approved)]
    ensures ScheduledUsage(s, n, m) == ScheduledUsage(s', n, m)
  {
    forall k: nat | k < |s.deployments| ensures UsageShare(s, n, m, k) == UsageShare(s', n, m, k) {
      SumEqual(|s.jobs|, ShadowTerm(s.jobs, n, k, s.deployments[k], m), ShadowTerm(s.jobs, n, k, s'.deployments[k], m));
    }
    SumEqual(|s.deployments|, UsageTerm(s, n, m), UsageTerm(s', n, m));
  }
}
