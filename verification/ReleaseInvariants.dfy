/** What every run keeps about the three lifecycles: one published and at most one waiting release
    per project environment, and assignments that agree with the serve status. */
module ReleaseInvariants {
  import opened Basics
  import opened Lifecycle
  import opened Scheduler
  import opened Delivery
  import opened ControlPlane
  import opened Effects

  predicate Published(d: Deployment) {
    d.environment.Production? && d.release.Active?
  }

  predicate RowAssigned(d: Deployment) {
    (d.serve.Retired? <==> d.serveNode.None?) && (d.pending.Some? ==> !d.serve.Retired?)
  }

  predicate RowSound(d: Deployment) {
    && RowAssigned(d)
    && (d.release.Active? ==> d.build.BuildReady?)
    && (d.pending.Some? ==> d.build.BuildReady?)
    && (Published(d) ==> !d.serve.Retired?)
    && (InProgress(d.build) ==> !d.serve.Retired?)
  }

  /** Failed and canceled builds have given up their assignment. */
  predicate Settled(d: Deployment) {
    d.build.BuildFailed? || d.build.BuildCanceled? ==> d.serve.Retired?
  }

  ghost predicate RowsSound(ds: seq<Deployment>) {
    forall i: nat :: i < |ds| ==> RowSound(ds[i])
  }

  /** What no order of transactions can break. */
  ghost predicate BaseInvariant(s: State) {
    && OnePerEnvironment(s.deployments)
    && forall i: nat :: i < |s.deployments| ==> RowAssigned(s.deployments[i])
  }

  ghost predicate LifecycleInvariant(s: State) {
    && OnePerEnvironment(s.deployments)
    && RowsSound(s.deployments)
    && forall i: nat :: i < |s.deployments| ==> Settled(s.deployments[i])
  }

  // --- Row updates ------------------------------------------------------------------

  /** No other deployment of the environment of `i` is Active (or waiting). */
  ghost predicate AloneActive(ds: seq<Deployment>, i: nat)
    requires i < |ds|
  {
    forall k: nat :: k < |ds| && k != i && SameEnvironment(ds[k], ds[i]) ==> !ds[k].release.Active?
  }

  ghost predicate AlonePending(ds: seq<Deployment>, i: nat)
    requires i < |ds|
  {
    forall k: nat :: k < |ds| && k != i && SameEnvironment(ds[k], ds[i]) ==> !ds[k].pending.Some?
  }

  lemma RowUpdateKeeps(s: State, i: nat, d': Deployment)
    requires BaseInvariant(s) && i < |s.deployments|
    requires RowAssigned(d') && SameEnvironment(d', s.deployments[i])
    requires d'.release.Active? ==> s.deployments[i].release.Active? || AloneActive(s.deployments, i)
    requires d'.pending.Some? ==> s.deployments[i].pending.Some? || AlonePending(s.deployments, i)
    ensures BaseInvariant(SetRow(s, i, d'))
    ensures LifecycleInvariant(s) && RowSound(d') && Settled(d') ==> LifecycleInvariant(SetRow(s, i, d'))
  {
  }

  lemma ReleaseChangeKeeps(s: State, i: nat, to: ReleaseStatus)
    requires BaseInvariant(s) && i < |s.deployments| && ChangeRelease(s, i, to).Ok?
    requires to.Active? ==> AloneActive(s.deployments, i)
    ensures BaseInvariant(ChangeRelease(s, i, to).value)
    ensures LifecycleInvariant(s) ==> LifecycleInvariant(ChangeRelease(s, i, to).value)
  {
    RowUpdateKeeps(s, i, s.deployments[i].(release := to));
  }

  /** Reconciling keeps the invariant, and settles every finished row of its environment. */
  lemma ReconcileKeeps(s: State, project: nat, environment: Environment)
    requires BaseInvariant(s)
    ensures BaseInvariant(Reconcile(s, project, environment))
    ensures RowsSound(s.deployments)
            && (forall i: nat :: i < |s.deployments| && !InEnvironment(s.deployments[i], project, environment) ==> Settled(s.deployments[i]))
            ==> LifecycleInvariant(Reconcile(s, project, environment))
  {
    var ds := s.deployments;
    var ds' := Reconciled(ds, project, environment);
    forall i: nat | i < |ds|
      ensures RowAssigned(ds'[i])
      ensures RowSound(ds[i]) && (!InEnvironment(ds[i], project, environment) ==> Settled(ds[i])) ==> RowSound(ds'[i]) && Settled(ds'[i])
    {
      assert RowAssigned(ds[i]);
      assert CandidateOf(ds, i) in Candidates(ds, project, environment) <==> InEnvironment(ds[i], project, environment);
    }
    forall i: nat | i < |ds| ensures SameEnvironment(ds'[i], ds[i]) && ds'[i].release == ds[i].release && ds'[i].pending == ds[i].pending {}
  }

  lemma ReconcileAroundKeeps(s: State, i: nat)
    requires BaseInvariant(s) && i < |s.deployments|
    ensures BaseInvariant(ReconcileAround(s, i))
    ensures LifecycleInvariant(s) ==> LifecycleInvariant(ReconcileAround(s, i))
  {
    ReconcileKeeps(s, s.deployments[i].project, s.deployments[i].environment);
  }

  // --- Activation ----------------------------------------------------------------------

  lemma ActivateKeeps(s: State, i: nat, reason: ReleaseReason)
    requires BaseInvariant(s) && i < |s.deployments| && Activate(s, i, reason).Ok?
    ensures BaseInvariant(Activate(s, i, reason).value)
    ensures LifecycleInvariant(s) ==> LifecycleInvariant(Activate(s, i, reason).value)
  {
    var previous := FindActive(s.deployments, |s.deployments|, i);
    if previous.Some? {
      ReleaseChangeKeeps(s, previous.value, Approved);
      var demoted := ChangeRelease(s, previous.value, Approved).value;
      assert AloneActive(demoted.deployments, i);
      ReleaseChangeKeeps(demoted, i, Active);
    } else {
      ReleaseChangeKeeps(s, i, Active);
    }
  }

  ghost predicate OneActivePerEnvironment(ds: seq<Deployment>) {
    forall i: nat, k: nat :: i < |ds| && k < |ds| && i != k && SameEnvironment(ds[i], ds[k])
      ==> !(ds[i].release.Active? && ds[k].release.Active?)
  }

  /** The Active deployment of the environment of `i` other than `i`, or nothing when there is none. */
  ghost predicate Replaces(ds: seq<Deployment>, i: nat, previous: Option<nat>)
    requires i < |ds|
  {
    match previous
    case Some(k) => k < |ds| && k != i && ds[k].release.Active? && SameEnvironment(ds[k], ds[i])
    case None => AloneActive(ds, i)
  }

  /** The whole effect of an activation: the target becomes Active, the previous Active of its environment
      goes back to Approved, one release row is written, and nothing else changes. */
  lemma ActivateExactly(s: State, i: nat, reason: ReleaseReason)
    requires OneActivePerEnvironment(s.deployments) && i < |s.deployments|
    ensures Activate(s, i, reason).Ok? <==>
            var d := s.deployments[i]; (d.release.Draft? || d.release.Approved?) && d.build.BuildReady? && d.serve.ServeReady?
    ensures Activate(s, i, reason).Ok? ==>
              var s' := Activate(s, i, reason).value;
              var d := s.deployments[i];
              && s'.nodes == s.nodes && s'.jobs == s.jobs && |s'.deployments| == |s.deployments|
              && s'.deployments[i] == d.(release := Active)
              && (forall k: nat :: k < |s.deployments| && k != i ==>
                    s'.deployments[k] == if SameEnvironment(s.deployments[k], d) && s.deployments[k].release.Active?
                                         then s.deployments[k].(release := Approved) else s.deployments[k])
              && exists previous :: Replaces(s.deployments, i, previous)
                    && s'.releases == s.releases + [Release(d.project, d.environment, i, reason, previous)]
  {
  }

  lemma QueueKeeps(s: State, i: nat, reason: ReleaseReason, chosen: Option<Placement>)
    requires BaseInvariant(s) && i < |s.deployments| && !PendingElsewhere(s.deployments, i)
    requires s.deployments[i].serveNode.None? || s.deployments[i].serve.Retired? ==> chosen.Some?
    ensures var queued := SetRow(s, i, QueuedRow(s.deployments[i], reason, chosen));
            && BaseInvariant(queued)
            && (LifecycleInvariant(s) && s.deployments[i].build.BuildReady? ==> LifecycleInvariant(queued))
  {
    assert RowAssigned(s.deployments[i]);
    RowUpdateKeeps(s, i, QueuedRow(s.deployments[i], reason, chosen));
  }

  lemma RequestReleaseKeeps(s: State, i: nat, reason: ReleaseReason, chosen: Option<Placement>, now: int)
    requires BaseInvariant(s) && i < |s.deployments|
    requires RequestRelease(s, i, reason, chosen, now).Ok?
    ensures BaseInvariant(RequestRelease(s, i, reason, chosen, now).value)
    ensures LifecycleInvariant(s) && s.deployments[i].build.BuildReady? ==> LifecycleInvariant(RequestRelease(s, i, reason, chosen, now).value)
  {
    var d := s.deployments[i];
    var settled := RequestShape(s, i, reason, chosen, now);
    if d.serveNode.Some? && d.serve.ServeReady? { ActivateKeeps(s, i, reason); } else { QueueKeeps(s, i, reason, chosen); }
    ReconcileAroundKeeps(settled, i);
  }

  /** The last step of a ready build's report reconciles around its row, submitted or not. */
  lemma FinalizeShape(s: State, i: nat, mode: ReviewMode, s': State) returns (settled: State)
    requires i < |s.deployments| && FinalizeReady(s, i, mode) == Ok(s')
    ensures var ready := SetRow(s, i, s.deployments[i].(build := BuildReady));
            if mode.ManualReview? && s.deployments[i].release.Draft? then ChangeRelease(ready, i, PendingReview) == Ok(settled)
            else settled == ready
    ensures i < |settled.deployments| && s' == ReconcileAround(settled, i)
  {
    var ready := SetRow(s, i, s.deployments[i].(build := BuildReady));
    assert s.deployments[i].build.BuildReady? ==> ready == s;
    settled := if mode.ManualReview? && s.deployments[i].release.Draft? then ChangeRelease(ready, i, PendingReview).value else ready;
  }

  lemma CompletePendingKeeps(s: State, i: nat)
    requires BaseInvariant(s) && i < |s.deployments| && CompletePendingRelease(s, i).Ok?
    ensures BaseInvariant(CompletePendingRelease(s, i).value)
    ensures LifecycleInvariant(s) ==> LifecycleInvariant(CompletePendingRelease(s, i).value)
  {
    var d := s.deployments[i];
    if d.pending.Some? && d.serve.ServeReady? {
      ActivateKeeps(s, i, d.pending.value);
      var activated := Activate(s, i, d.pending.value).value;
      RowUpdateKeeps(activated, i, activated.deployments[i].(pending := None));
      ReconcileAroundKeeps(SetRow(activated, i, activated.deployments[i].(pending := None)), i);
    }
  }

  lemma CompleteServeReadyKeeps(s: State, i: nat, mode: ReviewMode)
    requires BaseInvariant(s) && i < |s.deployments| && CompleteServeReady(s, i, mode).Ok?
    ensures BaseInvariant(CompleteServeReady(s, i, mode).value)
    ensures LifecycleInvariant(s) ==> LifecycleInvariant(CompleteServeReady(s, i, mode).value)
  {
    var d := s.deployments[i];
    if d.pending.Some? {
      CompletePendingKeeps(s, i);
      ReconcileAroundKeeps(CompletePendingRelease(s, i).value, i);
    } else if mode.AutoReview? && d.release.Draft? {
      ActivateKeeps(s, i, Auto);
      ReconcileAroundKeeps(Activate(s, i, Auto).value, i);
    } else {
      ReconcileAroundKeeps(s, i);
    }
  }

  // --- The transactions --------------------------------------------------------------------

  lemma RemovalKeeps(s: State, i: nat, kind: PublicationRemovalKind)
    requires BaseInvariant(s) && i < |s.deployments| && RemovePublication(s, i, kind).Ok?
    ensures BaseInvariant(RemovePublication(s, i, kind).value)
    ensures LifecycleInvariant(s) ==> LifecycleInvariant(RemovePublication(s, i, kind).value)
  {
    var d := s.deployments[i];
    if !(d.release == PublicationRemovalTarget(kind) && d.serve.Retired?) {
      ReleaseChangeKeeps(s, i, PublicationRemovalTarget(kind));
      var changed := ChangeRelease(s, i, PublicationRemovalTarget(kind)).value;
      var removed := Unassigned(changed.deployments[i]).(pending := None);
      RowUpdateKeeps(changed, i, removed);
      ReconcileAroundKeeps(SetRow(changed, i, removed), i);
    }
  }

  lemma FinalizeKeeps(s: State, i: nat, mode: ReviewMode)
    requires BaseInvariant(s) && i < |s.deployments| && FinalizeReady(s, i, mode).Ok?
    ensures BaseInvariant(FinalizeReady(s, i, mode).value)
    ensures LifecycleInvariant(s) ==> LifecycleInvariant(FinalizeReady(s, i, mode).value)
  {
    var built := s.deployments[i].(build := BuildReady);
    RowUpdateKeeps(s, i, built);
    var ready := SetRow(s, i, built);
    if mode.ManualReview? && built.release.Draft? {
      ReleaseChangeKeeps(ready, i, PendingReview);
      ReconcileAroundKeeps(ChangeRelease(ready, i, PendingReview).value, i);
    } else {
      ReconcileAroundKeeps(ready, i);
    }
  }

  lemma UnsuccessfulKeeps(s: State, i: nat, to: BuildStatus)
    requires BaseInvariant(s) && i < |s.deployments| && TransitionUnsuccessfulBuild(s, i, to).Ok?
    ensures BaseInvariant(TransitionUnsuccessfulBuild(s, i, to).value)
    ensures LifecycleInvariant(s) ==> LifecycleInvariant(TransitionUnsuccessfulBuild(s, i, to).value)
  {
    var d := s.deployments[i];
    assert RowAssigned(d);
    assert LifecycleInvariant(s) ==> RowSound(d);
    var stopped := SetRow(s, i, d.(build := to));
    ReconcileKeeps(stopped, d.project, d.environment);
  }

  lemma ReviewKeeps(s: State, i: nat, approved: bool, chosen: Option<Placement>, now: int)
    requires BaseInvariant(s) && i < |s.deployments| && ResolveReview(s, i, approved, chosen, now).Ok?
    ensures BaseInvariant(ResolveReview(s, i, approved, chosen, now).value)
    ensures LifecycleInvariant(s) ==> LifecycleInvariant(ResolveReview(s, i, approved, chosen, now).value)
  {
    if approved {
      ReleaseChangeKeeps(s, i, Approved);
      var changed := ChangeRelease(s, i, Approved).value;
      RequestReleaseKeeps(changed.(history := changed.history + [ReviewApproved(i)]), i, Promote, chosen, now);
    } else {
      ReleaseChangeKeeps(s, i, Rejected);
    }
  }

  lemma RepublishKeeps(s: State, i: nat, mode: ReviewMode, chosen: Option<Placement>, now: int)
    requires BaseInvariant(s) && i < |s.deployments| && Republish(s, i, mode, chosen, now).Ok?
    ensures BaseInvariant(Republish(s, i, mode, chosen, now).value)
    ensures LifecycleInvariant(s) ==> LifecycleInvariant(Republish(s, i, mode, chosen, now).value)
  {
    var d := s.deployments[i];
    if mode.ManualReview? && !d.release.Approved? {
      ReleaseChangeKeeps(s, i, PendingReview);
    } else if d.release.Rejected? {
      ReleaseChangeKeeps(s, i, PendingReview);
      var resubmitted := ChangeRelease(s, i, PendingReview).value;
      ReleaseChangeKeeps(resubmitted, i, Approved);
      RequestReleaseKeeps(ChangeRelease(resubmitted, i, Approved).value, i, Promote, chosen, now);
    } else {
      RequestReleaseKeeps(s, i, Promote, chosen, now);
    }
  }

  lemma ServeReportKeeps(s: State, i: nat, n: nat, capable: bool, status: ServeStatus, job: Option<nat>, mode: ReviewMode)
    requires BaseInvariant(s) && i < |s.deployments| && ReportServeStatus(s, i, n, capable, status, job, mode).Ok?
    ensures BaseInvariant(ReportServeStatus(s, i, n, capable, status, job, mode).value)
    ensures LifecycleInvariant(s) ==> LifecycleInvariant(ReportServeStatus(s, i, n, capable, status, job, mode).value)
  {
    var d := s.deployments[i];
    if d.serveNode == Some(n) {
      var served := TransitionServe(d, status).value;
      RowUpdateKeeps(s, i, served);
      if status.ServeReady? { CompleteServeReadyKeeps(SetRow(s, i, served), i, mode); }
    }
  }

  /** A build report that was overtaken by the end of its build puts a finished row back in progress although
      the row is published, waits for its release or has given up its node. */
  predicate RestartsInUse(s: State, a: Action) {
    RestartsBuild(s, a)
    && var d := s.deployments[a.deployment]; d.release.Active? || d.pending.Some? || d.serve.Retired?
  }

  lemma BuildReportDecides(s: State, i: nat, seen: BuildStatus, to: BuildStatus)
    requires BaseInvariant(s) && i < |s.deployments| && ReportBuildProgress(s, i, seen, to).Ok?
    ensures BaseInvariant(ReportBuildProgress(s, i, seen, to).value)
    ensures LifecycleInvariant(s) ==>
              (LifecycleInvariant(ReportBuildProgress(s, i, seen, to).value) <==> !RestartsInUse(s, ABuildProgress(i, seen, to)))
  {
    var d' := s.deployments[i].(build := to);
    RowUpdateKeeps(s, i, d');
    var s' := ReportBuildProgress(s, i, seen, to).value;
    assert s'.deployments[i] == d';
    if LifecycleInvariant(s') { assert RowSound(s'.deployments[i]); }
    if LifecycleInvariant(s) { assert RowSound(s.deployments[i]); }
  }

  /** A promotion or rollback that its handler let through queues its deployment. */
  predicate Queues(s: State, a: Action) {
    && a.AActivate? && a.seenReady && (a.seenRelease.Approved? || (a.seenRelease.Draft? && a.mode.AutoReview?))
    && a.deployment < |s.deployments| && !PendingElsewhere(s.deployments, a.deployment)
    && var d := s.deployments[a.deployment];
    && !(d.serveNode.Some? && d.serve.ServeReady?)
    && (d.serveNode.None? || d.serve.Retired? ==>
          a.chosen.Some? && PlacementIsPossible(s, a.now, d.resources, Some(d.region), None, a.chosen.value))
  }

  /** It queues one whose build was ready when its handler read it and is not ready by then. */
  predicate QueuesUnready(s: State, a: Action) {
    Queues(s, a) && !s.deployments[a.deployment].build.BuildReady?
  }

  lemma QueuingDecides(s: State, i: nat, reason: ReleaseReason, chosen: Option<Placement>, now: int)
    requires BaseInvariant(s) && i < |s.deployments| && RequestRelease(s, i, reason, chosen, now).Ok?
    requires !(s.deployments[i].serveNode.Some? && s.deployments[i].serve.ServeReady?)
    ensures LifecycleInvariant(s) ==>
              (LifecycleInvariant(RequestRelease(s, i, reason, chosen, now).value) <==> s.deployments[i].build.BuildReady?)
  {
    RequestReleaseKeeps(s, i, reason, chosen, now);
    var settled := RequestShape(s, i, reason, chosen, now);
    WaitingIsKept(settled, i);
    if !s.deployments[i].build.BuildReady? { assert !RowSound(ReconcileAround(settled, i).deployments[i]); }
  }

  lemma WaitingIsKept(s: State, i: nat)
    requires i < |s.deployments| && s.deployments[i].pending.Some?
    ensures ReconcileAround(s, i).deployments[i] == s.deployments[i]
  {
    var d := s.deployments[i];
    assert CandidateOf(s.deployments, i) in Candidates(s.deployments, d.project, d.environment);
  }

  lemma ActivationDecides(s: State, a: Action)
    requires BaseInvariant(s) && a.AActivate? && a.deployment < |s.deployments| && DeploymentStep(s, a).Ok?
    ensures BaseInvariant(DeploymentStep(s, a).value)
    ensures LifecycleInvariant(s) ==> (LifecycleInvariant(DeploymentStep(s, a).value) <==> !QueuesUnready(s, a))
  {
    var i, d := a.deployment, s.deployments[a.deployment];
    if a.seenRelease.Draft? && a.mode.ManualReview? {
      ReleaseChangeKeeps(s, i, PendingReview);
    } else {
      RequestReleaseKeeps(s, i, a.reason, a.chosen, a.now);
      var _ := RequestShape(s, i, a.reason, a.chosen, a.now);
      if !(d.serveNode.Some? && d.serve.ServeReady?) { QueuingDecides(s, i, a.reason, a.chosen, a.now); }
    }
  }

  lemma QueueGrants(s: State, i: nat, reason: ReleaseReason, chosen: Option<Placement>, now: int)
    requires i < |s.deployments| && !PendingElsewhere(s.deployments, i)
    requires var d := s.deployments[i];
             && !(d.serveNode.Some? && d.serve.ServeReady?)
             && (d.serveNode.None? || d.serve.Retired? ==>
                   chosen.Some? && PlacementIsPossible(s, now, d.resources, Some(d.region), None, chosen.value))
    ensures RequestRelease(s, i, reason, chosen, now).Ok?
  {
  }

  lemma QueuingCommits(s: State, a: Action)
    requires a.AActivate? && a.seenReady && a.deployment < |s.deployments|
    requires a.seenRelease.Approved? || (a.seenRelease.Draft? && a.mode.AutoReview?)
    requires RequestRelease(s, a.deployment, a.reason, a.chosen, a.now).Ok?
    ensures DeploymentStep(s, a).Ok?
  {
    ActivationRequests(s, a.deployment, a.seenRelease, a.reason, a.mode, a.chosen, a.now);
  }

  lemma ActivationRequests(s: State, i: nat, seen: ReleaseStatus, reason: ReleaseReason, mode: ReviewMode, chosen: Option<Placement>, now: int)
    requires i < |s.deployments| && (seen.Approved? || (seen.Draft? && mode.AutoReview?))
    ensures ActivateDeployment(s, i, true, seen, reason, mode, chosen, now) == RequestRelease(s, i, reason, chosen, now)
  {
  }

  /** The transactions that act on a build that changed since their handler read it. */
  predicate Unsettles(s: State, a: Action) {
    RestartsInUse(s, a) || QueuesUnready(s, a)
  }

  lemma DeploymentStepKeepsLifecycle(s: State, a: Action)
    requires BaseInvariant(s) && OnDeployment(a) && a.deployment < |s.deployments| && DeploymentStep(s, a).Ok?
    ensures BaseInvariant(DeploymentStep(s, a).value)
    ensures LifecycleInvariant(s) ==> (LifecycleInvariant(DeploymentStep(s, a).value) <==> !Unsettles(s, a))
  {
    var i := a.deployment;
    match a {
      case AClaim(_, n) => RowUpdateKeeps(s, i, s.deployments[i].(build := Claimed, buildNode := Some(n)));
      case ABuildProgress(_, seen, to) => BuildReportDecides(s, i, seen, to);
      case AFinalizeReady(_, mode) => FinalizeKeeps(s, i, mode);
      case AUnsuccessful(_, to) => UnsuccessfulKeeps(s, i, to);
      case AServeReport(_, n, capable, status, job, mode) => ServeReportKeeps(s, i, n, capable, status, job, mode);
      case AActivate(_, _, _, _, _, _, _) => ActivationDecides(s, a);
      case AReview(_, approved, chosen, now) => ReviewKeeps(s, i, approved, chosen, now);
      case ARepublish(_, mode, chosen, now) => RepublishKeeps(s, i, mode, chosen, now);
      case ARemovePublication(_, kind) => RemovalKeeps(s, i, kind);
      case AUpload(_, disk) => RowUpdateKeeps(s, i, s.deployments[i].(resources := s.deployments[i].resources.(disk := disk)));
    }
  }

  /** A pass over a job changes no lifecycle: a cutover only renames the node of a live deployment. */
  lemma ProcessJobKeepsLifecycle(s: State, j: nat, now: int, invalid: set<nat>)
    requires BaseInvariant(s) && j < |s.jobs|
    ensures BaseInvariant(ProcessJob(s, j, now, invalid))
    ensures LifecycleInvariant(s) ==> LifecycleInvariant(ProcessJob(s, j, now, invalid))
  {
    var ds, ds' := s.deployments, ProcessJob(s, j, now, invalid).deployments;
    ProcessJobRows(s, j, now, invalid);
    forall i: nat | i < |ds|
      ensures RowAssigned(ds'[i])
      ensures RowSound(ds[i]) && Settled(ds[i]) ==> RowSound(ds'[i]) && Settled(ds'[i])
    {
      assert RowAssigned(ds[i]);
    }
  }

  /** The only fields of a deployment a pass can change are its node and its overcommitted flag. */
  lemma ProcessJobRows(s: State, j: nat, now: int, invalid: set<nat>)
    requires j < |s.jobs|
    ensures var s' := ProcessJob(s, j, now, invalid);
            && |s'.deployments| == |s.deployments| && s'.releases == s.releases && s'.history == s.history
            && forall i: nat :: i < |s.deployments| ==>
                 var d, d' := s.deployments[i], s'.deployments[i];
                 && d' == d.(serveNode := d'.serveNode, overcommitted := d'.overcommitted)
                 && (d'.serveNode != d.serveNode ==> Live(d) && d.serveNode == Some(s.jobs[j].node) && d'.serveNode == s.jobs[j].target && d'.serveNode.Some?)
  {
    var job := s.jobs[j];
    var settled := job.(rows := SettledRows(job, s.deployments, invalid));
    var moved := SwitchRoutes(s, settled);
    forall i: nat | i < |s.deployments| ensures
                 var d, d' := s.deployments[i], moved.deployments[i];
                 && d' == d.(serveNode := d'.serveNode, overcommitted := d'.overcommitted)
                 && (d'.serveNode != d.serveNode ==> Live(d) && d.serveNode == Some(job.node) && d'.serveNode == job.target && d'.serveNode.Some?)
    {}
    ProcessJobDeployments(s, j, now, invalid);
  }

  lemma ProcessJobDeployments(s: State, j: nat, now: int, invalid: set<nat>)
    requires j < |s.jobs|
    ensures var s' := ProcessJob(s, j, now, invalid);
            var settled := s.jobs[j].(rows := SettledRows(s.jobs[j], s.deployments, invalid));
            && s'.releases == s.releases && s'.history == s.history
            && (s'.deployments == s.deployments || s'.deployments == SwitchRoutes(s, settled).deployments)
  {
  }

  /** One transaction keeps the lifecycles consistent if and only if it neither restarts a build in use nor
      queues a release of an unready one; the base invariant no transaction breaks. */
  lemma StepDecidesLifecycle(s: State, a: Action)
    requires BaseInvariant(s)
    ensures BaseInvariant(Step(s, a))
    ensures LifecycleInvariant(s) ==> (LifecycleInvariant(Step(s, a)) <==> !Unsettles(s, a))
  {
    if OnDeployment(a) {
      StepOnDeployment(s, a);
      if a.deployment < |s.deployments| && DeploymentStep(s, a).Ok? { DeploymentStepKeepsLifecycle(s, a); } else { UnsettlingCommits(s, a); }
    } else {
      SystemStepKeepsLifecycle(s, a);
    }
  }

  lemma UnsettlingCommits(s: State, a: Action)
    requires OnDeployment(a) && (a.deployment < |s.deployments| ==> DeploymentStep(s, a).Err?)
    ensures !Unsettles(s, a)
  {
    if a.AActivate? && Queues(s, a) {
      QueueGrants(s, a.deployment, a.reason, a.chosen, a.now);
      QueuingCommits(s, a);
    }
    if RestartsBuild(s, a) { RestartCommits(s, a); }
  }

  lemma SystemStepKeepsLifecycle(s: State, a: Action)
    requires BaseInvariant(s) && !OnDeployment(a)
    ensures BaseInvariant(Step(s, a)) && (LifecycleInvariant(s) ==> LifecycleInvariant(Step(s, a)))
  {
    if a.AProcessJob? {
      if a.job < |s.jobs| { ProcessJobKeepsLifecycle(s, a.job, a.now, a.invalidArtifacts); }
    } else if a.ACreate? {
      CreateKeepsLifecycle(s, a);
    } else {
      assert Step(s, a).deployments == s.deployments;
    }
  }

  lemma CreateKeepsLifecycle(s: State, a: Action)
    requires BaseInvariant(s) && a.ACreate?
    ensures BaseInvariant(Step(s, a))
    ensures LifecycleInvariant(s) ==> LifecycleInvariant(Step(s, a))
  {
    var d := CreateShape(s, a);
    if d.Some? { CreatingKeepsLifecycle(s, d.value); }
  }

  lemma CreatingKeepsLifecycle(s: State, d: Deployment)
    requires BaseInvariant(s)
    requires d.build.BuildPending? && d.serve.ServePending? && d.serveNode.Some? && d.release.Draft? && d.pending.None?
    ensures BaseInvariant(s.(deployments := s.deployments + [d]))
    ensures LifecycleInvariant(s) ==> LifecycleInvariant(s.(deployments := s.deployments + [d]))
  {
  }

  // --- Every run ---------------------------------------------------------------------------

  lemma {:induction false} RunKeepsBase(actions: seq<Action>)
    ensures BaseInvariant(Run(actions))
  {
    if actions != [] {
      RunKeepsBase(actions[..|actions| - 1]);
      RunEnds(actions);
      StepDecidesLifecycle(Run(actions[..|actions| - 1]), actions[|actions| - 1]);
    }
  }

  /** Whatever transactions run, with whatever stale reads: one Active and one waiting release per project
      environment at most, and a deployment is Retired exactly when it has no node, which a waiting one has. */
  lemma ReleasesStayUnique(actions: seq<Action>)
    ensures var ds := Run(actions).deployments;
            && (forall i: nat, k: nat :: i < |ds| && k < |ds| && i != k && SameEnvironment(ds[i], ds[k])
                  ==> !(ds[i].release.Active? && ds[k].release.Active?) && !(ds[i].pending.Some? && ds[k].pending.Some?))
            && (forall i: nat :: i < |ds| ==>
                  (ds[i].serve.Retired? <==> ds[i].serveNode.None?) && (ds[i].pending.Some? ==> ds[i].serveNode.Some?))
  {
    RunKeepsBase(actions);
    var ds := Run(actions).deployments;
    forall i: nat | i < |ds| ensures RowAssigned(ds[i]) {}
  }

  ghost predicate NeverUnsettles(actions: seq<Action>) {
    forall k: nat :: k < |actions| ==> !Unsettles(Run(actions[..k]), actions[k])
  }

  lemma {:induction false} LifecycleAfter(actions: seq<Action>, k: nat)
    requires NeverUnsettles(actions) && k <= |actions|
    ensures LifecycleInvariant(Run(actions[..k]))
  {
    if k > 0 {
      LifecycleAfter(actions, k - 1);
      RunPrefix(actions, k - 1);
      assert !Unsettles(Run(actions[..k - 1]), actions[k - 1]);
      SettledStepKeeps(Run(actions[..k - 1]), actions[k - 1], Run(actions[..k]));
    }
  }

  lemma SettledStepKeeps(s: State, a: Action, s': State)
    requires LifecycleInvariant(s) && !Unsettles(s, a) && s' == Step(s, a)
    ensures LifecycleInvariant(s')
  {
    forall i: nat | i < |s.deployments| ensures RowAssigned(s.deployments[i]) { assert RowSound(s.deployments[i]); }
    StepDecidesLifecycle(s, a);
  }

  lemma RunKeepsLifecycle(actions: seq<Action>)
    requires NeverUnsettles(actions)
    ensures LifecycleInvariant(Run(actions))
  {
    LifecycleAfter(actions, |actions|);
    assert actions[..|actions|] == actions;
  }

  /** Only ready builds are Active or wait for a release, neither a waiting release nor the published production
      deployment nor a build in progress is Retired, and stopped builds are. */
  ghost predicate Consistent(ds: seq<Deployment>) {
    forall i: nat :: i < |ds| ==>
      && (ds[i].release.Active? || ds[i].pending.Some? ==> ds[i].build.BuildReady?)
      && (ds[i].serve.Retired? ==> ds[i].pending.None? && !InProgress(ds[i].build) && !Published(ds[i]))
      && Settled(ds[i])
  }

  lemma ConsistentMeans(s: State)
    requires BaseInvariant(s)
    ensures Consistent(s.deployments) <==> LifecycleInvariant(s)
  {
    var ds := s.deployments;
    if Consistent(ds) {
      forall i: nat | i < |ds| ensures RowSound(ds[i]) && Settled(ds[i]) { assert RowAssigned(ds[i]); }
    }
    if LifecycleInvariant(s) {
      forall i: nat | i < |ds| ensures RowSound(ds[i]) && Settled(ds[i]) {}
    }
  }

  /** Builds, releases and assignments agree in every state of a run if and only if no overtaken build report
      of the run restarted a build in use and no handler queued one that was not ready any more. */
  lemma ReleasesStayConsistent(actions: seq<Action>)
    ensures (forall k: nat :: k <= |actions| ==> Consistent(Run(actions[..k]).deployments)) <==> NeverUnsettles(actions)
  {
    forall k: nat | k <= |actions| ensures Consistent(Run(actions[..k]).deployments) <==> LifecycleInvariant(Run(actions[..k])) {
      RunKeepsBase(actions[..k]);
      ConsistentMeans(Run(actions[..k]));
    }
    if forall k: nat :: k <= |actions| ==> Consistent(Run(actions[..k]).deployments) {
      forall k: nat | k < |actions| ensures !Unsettles(Run(actions[..k]), actions[k]) {
        RunPrefix(actions, k);
        RunKeepsBase(actions[..k]);
        assert Consistent(Run(actions[..k]).deployments) && Consistent(Run(actions[..k + 1]).deployments);
        StepDecidesLifecycle(Run(actions[..k]), actions[k]);
      }
    }
    if NeverUnsettles(actions) {
      forall k: nat | k <= |actions| ensures Consistent(Run(actions[..k]).deployments) { LifecycleAfter(actions, k); }
    }
  }

  /** After a reconciliation in a reachable state the assigned deployments of the environment are exactly the
      desired ones among those that had a node, and no desired one lacks a node unless a transaction acted
      on a build that had changed. */
  lemma ReconciledMeansAssigned(actions: seq<Action>, project: nat, environment: Environment, i: nat)
    requires i < |Run(actions).deployments| && InEnvironment(Run(actions).deployments[i], project, environment)
    ensures var ds := Run(actions).deployments;
            var after := Reconciled(ds, project, environment);
            && (after[i].serveNode.Some? <==> IsDesired(after, project, environment, i) && ds[i].serveNode.Some?)
            && (NeverUnsettles(actions) ==> (after[i].serveNode.Some? <==> IsDesired(after, project, environment, i)))
  {
    RunKeepsBase(actions);
    var ds := Run(actions).deployments;
    ReconcileKeepsDesired(ds, project, environment, i);
    assert RowAssigned(ds[i]);
    assert CandidateOf(ds, i) in Candidates(ds, project, environment);
    if NeverUnsettles(actions) {
      RunKeepsLifecycle(actions);
      assert RowSound(ds[i]);
    }
  }
}
