/** What every transaction answers and writes, row by row: the answer for each cause, and the one table that results. */
module Handlers {
  import opened Basics
  import opened Lifecycle
  import opened Scheduler
  import opened Delivery
  import opened ControlPlane
  import opened ReleaseInvariants
  import opened ReleaseFlow
  import opened Placements

  // --- The transition tables, by their targets ---------------------------------------------------------

  /** Whence each build status is reached. */
  lemma BuildOrigins(from: BuildStatus, to: BuildStatus)
    ensures CanTransitionBuild(from, to) <==>
            || (to == Claimed && from == BuildPending)
            || (to == Queued && from == Claimed)
            || (to == Building && from in {Claimed, Queued})
            || (to == BuildReady && from == Building)
            || (to in {BuildFailed, BuildCanceled} && from in {BuildPending, Claimed, Queued, Building})
  {
  }

  /** Where each serve status leads. */
  lemma ServeTargets(from: ServeStatus, to: ServeStatus)
    ensures CanTransitionServe(from, to) <==>
            || (from == ServePending && to in {Syncing, Retired})
            || (from == Syncing && to in {ServeReady, ServeFailed, Retired})
            || (from == ServeReady && to in {Syncing, Retired})
            || (from == ServeFailed && to in {Syncing, Retired})
            || (from == Retired && to == ServePending)
  {
  }

  /** Whence a release status is reached, with the build and the serve status it takes: only Active deployments lose their
      status without a ready build, and only reviews are decided about a retired one. */
  lemma ReleaseOrigins(d: Deployment, to: ReleaseStatus)
    ensures TransitionRelease(d, to).Ok? <==>
            || (d.release == Active && to in {Approved, Draft})
            || (d.build == BuildReady && d.release == Draft && to == PendingReview)
            || (d.build == BuildReady && d.release == Rejected && to == PendingReview && d.serve == ServeReady)
            || (d.build == BuildReady && d.release == PendingReview && to in {Approved, Rejected} && d.serve in {ServeReady, Retired})
            || (d.build == BuildReady && d.release in {Draft, Approved} && to == Active && d.serve == ServeReady)
    ensures TransitionRelease(d, to).Ok? ==> TransitionRelease(d, to).value == d.(release := to)
  {
  }

  // --- Activation --------------------------------------------------------------------------------------

  /** The rows after an activation: deployment `i` is Active, and what was Active in its environment is Approved. */
  predicate ActivatedRows(ds: seq<Deployment>, ds': seq<Deployment>, i: nat)
    requires i < |ds|
  {
    && |ds'| == |ds| && ds'[i] == ds[i].(release := Active)
    && forall k: nat :: k < |ds| && k != i ==>
         ds'[k] == if ds[k].project == ds[i].project && ds[k].environment == ds[i].environment && ds[k].release == Active
                   then ds[k].(release := Approved) else ds[k]
  }

  /** Its release row, and the log of what was withdrawn for it and of the activation itself. */
  predicate ActivationLogged(s: State, s': State, i: nat, reason: ReleaseReason, previous: Option<nat>)
    requires i < |s.deployments|
  {
    && s'.releases == s.releases + [Release(s.deployments[i].project, s.deployments[i].environment, i, reason, previous)]
    && s'.history == s.history + (if previous.Some? then [ReleaseChanged(previous.value, Approved)] else []) + [ReleaseChanged(i, Active)]
  }

  lemma ActivationWrites(s: State, i: nat, reason: ReleaseReason, s': State) returns (previous: Option<nat>)
    requires OneActivePerEnvironment(s.deployments) && i < |s.deployments| && Activate(s, i, reason) == Ok(s')
    ensures ActivatedRows(s.deployments, s'.deployments, i) && Replaces(s.deployments, i, previous)
    ensures ActivationLogged(s, s', i, reason, previous) && s'.nodes == s.nodes && s'.jobs == s.jobs
  {
    previous := FindActive(s.deployments, |s.deployments|, i);
  }

  /** Reconciling around a row is reconciling its environment, and the second time it changes nothing. */
  lemma ReconciledOnce(s: State, i: nat)
    requires i < |s.deployments|
    ensures var d := s.deployments[i];
            && ReconcileAround(s, i) == s.(deployments := Reconciled(s.deployments, d.project, d.environment))
            && i < |ReconcileAround(s, i).deployments| && ReconcileAround(ReconcileAround(s, i), i) == ReconcileAround(s, i)
  {
    var d := s.deployments[i];
    ReconcileIdempotent(s.deployments, d.project, d.environment);
    ReconcileKeepsRelease(s, i, i);
  }

  // --- Serve reports -----------------------------------------------------------------------------------

  /** The report commits, or answers for the first cause there is: an unknown or incapable node, a status nodes do not report, a
      node that neither serves the deployment nor copies it, an unfinished build, a status the present one does not lead to. */
  lemma ReportAnswers(s: State, i: nat, n: nat, capable: bool, status: ServeStatus, job: Option<nat>, mode: ReviewMode)
    requires i < |s.deployments|
    ensures var d := s.deployments[i];
            var r := ReportServeStatus(s, i, n, capable, status, job, mode);
            var known := n < |s.nodes| && capable;
            var reportable := status in {Syncing, ServeReady, ServeFailed};
            var copies := job.Some? && job.value < |s.jobs| && s.jobs[job.value].target == Some(n)
                          && i in s.jobs[job.value].rows && s.jobs[job.value].rows[i] != RowFailed;
            && (r == Err(Forbidden) <==> !known || (reportable && d.serveNode != Some(n) && !copies))
            && (r == Err(Conflict) <==> known && (!reportable || (d.serveNode == Some(n) && d.build != BuildReady)))
            && (r == Err(InvalidState(InvalidServeTransition)) <==>
                  known && reportable && d.serveNode == Some(n) && d.build == BuildReady
                  && !(if status == Syncing then d.serve in {ServePending, ServeReady, ServeFailed} else d.serve == Syncing))
            && (known && reportable && d.serveNode != Some(n) && copies ==> r.Ok?)
  {
    var d := s.deployments[i];
    if n < |s.nodes| && capable && d.serveNode == Some(n) && d.build.BuildReady? && status.ServeReady? && d.serve.Syncing? {
      CompletionErrors(SetRow(s, i, d.(serve := ServeReady)), i, mode);
    }
  }

  lemma CompletionErrors(s: State, i: nat, mode: ReviewMode)
    requires i < |s.deployments| && s.deployments[i].serve.ServeReady? && s.deployments[i].build.BuildReady?
    ensures CompleteServeReady(s, i, mode).Ok? || CompleteServeReady(s, i, mode) == Err(InvalidState(InvalidReleaseTransition))
  {
    var d := s.deployments[i];
    if d.pending.Some? {
      ActivationErrors(s, i, d.pending.value);
    } else {
      ActivationErrors(s, i, Auto);
    }
  }

  /** A served deployment with a ready build can be activated as a draft or when approved, and otherwise only its release status
      is in the way. */
  lemma ActivationErrors(s: State, i: nat, reason: ReleaseReason)
    requires i < |s.deployments| && s.deployments[i].serve.ServeReady? && s.deployments[i].build.BuildReady?
    ensures Activate(s, i, reason).Ok? <==> Releasable(s.deployments[i])
    ensures Activate(s, i, reason).Err? ==> Activate(s, i, reason) == Err(InvalidState(InvalidReleaseTransition))
  {
  }

  /** The reports that a node fetches a deployment or failed to write its serve status and nothing else. */
  lemma SyncReportWrites(s: State, i: nat, n: nat, status: ServeStatus, job: Option<nat>, mode: ReviewMode, s': State)
    requires i < |s.deployments| && s.deployments[i].serveNode == Some(n) && status != ServeReady
    requires ReportServeStatus(s, i, n, true, status, job, mode) == Ok(s')
    ensures s' == s.(deployments := s.deployments[i := s.deployments[i].(serve := status)])
  {
  }

  /** The report that a node serves a deployment, as a transaction on the row with that status. */
  lemma ReadyReportCompletes(s: State, i: nat, n: nat, capable: bool, job: Option<nat>, mode: ReviewMode)
    requires i < |s.deployments| && s.deployments[i].serveNode == Some(n) && s.deployments[i].serve.Syncing?
    ensures ReportServeStatus(s, i, n, capable, ServeReady, job, mode) ==
            if n >= |s.nodes| || !capable then Err(Forbidden)
            else if !s.deployments[i].build.BuildReady? then Err(Conflict)
            else CompleteServeReady(SetRow(s, i, s.deployments[i].(serve := ServeReady)), i, mode)
  {
    assert TransitionServe(s.deployments[i], ServeReady) == Ok(s.deployments[i].(serve := ServeReady));
  }

  /** The report that its node serves a deployment without a waiting release commits exactly when its build is ready. It publishes
      the deployment, for the reason Auto, if and only if the review is automatic and the release is a draft; in every other case
      it writes no release row and changes no release status. */
  lemma ServedWithoutRelease(s: State, i: nat, n: nat, capable: bool, job: Option<nat>, mode: ReviewMode)
    requires i < |s.deployments| && OneActivePerEnvironment(s.deployments)
    requires s.deployments[i].pending.None? && s.deployments[i].serve == Syncing && s.deployments[i].serveNode == Some(n)
    ensures var d := s.deployments[i];
            var r := ReportServeStatus(s, i, n, capable, ServeReady, job, mode);
            && (r.Ok? <==> n < |s.nodes| && capable && d.build == BuildReady)
            && (r.Ok? ==> (PublishedNow(s, r.value, i, Auto) <==> mode == AutoReview && d.release == Draft))
            && (r.Ok? && mode == AutoReview && d.release == Draft ==> ServedAndPublished(s, i, Auto, r.value))
            && (r.Ok? && !(mode == AutoReview && d.release == Draft) ==>
                  && r.value == s.(deployments := Reconciled(s.deployments[i := d.(serve := ServeReady)], d.project, d.environment))
                  && forall k: nat :: k < |s.deployments| ==> r.value.deployments[k].release == s.deployments[k].release)
  {
    var d := s.deployments[i];
    ReadyReportCompletes(s, i, n, capable, job, mode);
    if n < |s.nodes| && capable && d.build.BuildReady? {
      var served := SetRow(s, i, d.(serve := ServeReady));
      ActivationErrors(served, i, Auto);
      ReconciledOnce(served, i);
      if mode.AutoReview? && d.release.Draft? {
        var s' := Activate(served, i, Auto).value;
        PublishingEffect(s, served, i, Auto, s');
      } else {
        forall k: nat | k < |s.deployments| ensures ReconcileAround(served, i).deployments[k].release == s.deployments[k].release {
          ReconcileKeepsRelease(served, i, k);
        }
      }
    }
  }

  /** Deployment `i` is served from now on and was published: its row and the one it replaces changed, its environment was
      reconciled, and one release row and its log were written. */
  ghost predicate ServedAndPublished(s: State, i: nat, reason: ReleaseReason, s': State)
    requires i < |s.deployments|
  {
    var d := s.deployments[i];
    && s'.nodes == s.nodes && s'.jobs == s.jobs
    && (exists ds: seq<Deployment> :: ActivatedRows(s.deployments[i := d.(serve := ServeReady, pending := None)], ds, i)
         && s'.deployments == Reconciled(ds, d.project, d.environment))
    && exists previous :: Replaces(s.deployments, i, previous) && ActivationLogged(s, s', i, reason, previous)
  }

  lemma ServingReplacesNothing(ds: seq<Deployment>, i: nat, d': Deployment, previous: Option<nat>)
    requires i < |ds| && SameEnvironment(d', ds[i]) && d'.release == ds[i].release && Replaces(ds[i := d'], i, previous)
    ensures Replaces(ds, i, previous)
  {
    if previous.None? {
      forall k: nat | k < |ds| && k != i && SameEnvironment(ds[k], ds[i]) ensures !ds[k].release.Active? {
        assert ds[i := d'][k] == ds[k];
      }
    }
  }

  lemma PublishingEffect(s: State, served: State, i: nat, reason: ReleaseReason, s': State)
    requires i < |s.deployments| && OneActivePerEnvironment(s.deployments) && s.deployments[i].pending.None?
    requires served == SetRow(s, i, s.deployments[i].(serve := ServeReady)) && Activate(served, i, reason) == Ok(s')
    ensures PublishedNow(s, ReconcileAround(s', i), i, reason) && ServedAndPublished(s, i, reason, ReconcileAround(s', i))
  {
    var d := s.deployments[i];
    var previous := ActivationWrites(served, i, reason, s');
    ReconcileKeepsRelease(s', i, i);
    ReconciledOnce(s', i);
    ServingReplacesNothing(s.deployments, i, d.(serve := ServeReady), previous);
    assert served.deployments == s.deployments[i := d.(serve := ServeReady, pending := None)];
  }

  /** The report that its node serves a waiting deployment carries its release out and ends the waiting; the rows it writes are the
      same, with the reason that was waiting. */
  lemma ServedWhileWaiting(s: State, i: nat, n: nat, capable: bool, job: Option<nat>, mode: ReviewMode, s': State)
    requires i < |s.deployments| && OneActivePerEnvironment(s.deployments)
    requires s.deployments[i].pending.Some? && s.deployments[i].serve == Syncing && s.deployments[i].serveNode == Some(n)
    requires ReportServeStatus(s, i, n, capable, ServeReady, job, mode) == Ok(s')
    ensures ServedAndPublished(s, i, s.deployments[i].pending.value, s')
  {
    var d := s.deployments[i];
    ReadyReportCompletes(s, i, n, capable, job, mode);
    var served := SetRow(s, i, d.(serve := ServeReady));
    var activated := Activate(served, i, d.pending.value).value;
    var cleared := SetRow(activated, i, activated.deployments[i].(pending := None));
    CompletionOnce(served, i, mode, activated, cleared, s');
    WaitingEffect(s, served, i, activated, cleared);
  }

  lemma CompletionOnce(served: State, i: nat, mode: ReviewMode, activated: State, cleared: State, s': State)
    requires i < |served.deployments| && served.deployments[i].pending.Some? && served.deployments[i].serve.ServeReady?
    requires CompleteServeReady(served, i, mode) == Ok(s') && Activate(served, i, served.deployments[i].pending.value) == Ok(activated)
    requires i < |activated.deployments| && cleared == SetRow(activated, i, activated.deployments[i].(pending := None))
    ensures s' == ReconcileAround(cleared, i)
  {
    assert CompletePendingRelease(served, i) == Ok(ReconcileAround(cleared, i));
    ReconciledOnce(cleared, i);
  }

  lemma WaitingEffect(s: State, served: State, i: nat, activated: State, cleared: State)
    requires i < |s.deployments| && OneActivePerEnvironment(s.deployments) && s.deployments[i].pending.Some?
    requires served == SetRow(s, i, s.deployments[i].(serve := ServeReady))
    requires Activate(served, i, s.deployments[i].pending.value) == Ok(activated)
    requires i < |activated.deployments| && cleared == SetRow(activated, i, activated.deployments[i].(pending := None))
    ensures ServedAndPublished(s, i, s.deployments[i].pending.value, ReconcileAround(cleared, i))
  {
    var d := s.deployments[i];
    var previous := ActivationWrites(served, i, d.pending.value, activated);
    ReconciledOnce(cleared, i);
    ServingReplacesNothing(s.deployments, i, d.(serve := ServeReady), previous);
    assert ActivatedRows(s.deployments[i := d.(serve := ServeReady, pending := None)], cleared.deployments, i);
  }

  // --- Builds ------------------------------------------------------------------------------------------

  /** A claim takes a pending build for an Active node that builds and exists. */
  lemma ClaimExactly(s: State, i: nat, n: nat)
    requires i < |s.deployments|
    ensures ClaimBuild(s, i, n) ==
            if s.deployments[i].build == BuildPending
               && n < |s.nodes| && s.nodes[n].status == NodeActive && s.nodes[n].buildEnabled && !s.nodes[n].deleted
            then Ok(s.(deployments := s.deployments[i := s.deployments[i].(build := Claimed, buildNode := Some(n))])) else Err(Conflict)
  {
  }

  /** A progress report is checked against the status its handler read, and overwrites the status there is. */
  lemma ProgressExactly(s: State, i: nat, seen: BuildStatus, to: BuildStatus)
    requires i < |s.deployments|
    ensures var r := ReportBuildProgress(s, i, seen, to);
            && (r.Ok? <==> (to == Queued && seen == Claimed) || (to == Building && seen in {Claimed, Queued}))
            && (r == Err(Conflict) <==> to !in {Queued, Building})
            && (r.Err? && to in {Queued, Building} ==> r == Err(InvalidState(InvalidBuildTransition)))
            && (r.Ok? ==> r.value == s.(deployments := s.deployments[i := s.deployments[i].(build := to)]))
  {
  }

  /** A build is reported ready while it runs, or again; under manual review that submits a draft. Then its environment is
      reconciled. */
  lemma FinalizeExactly(s: State, i: nat, mode: ReviewMode)
    requires i < |s.deployments|
    ensures var d := s.deployments[i];
            var r := FinalizeReady(s, i, mode);
            var submits := mode == ManualReview && d.release == Draft;
            && (r.Ok? <==> d.build in {Building, BuildReady})
            && (r.Err? ==> r == Err(InvalidState(InvalidBuildTransition)))
            && (r.Ok? ==>
                 var row := d.(build := BuildReady, release := if submits then PendingReview else d.release);
                 r.value == s.(deployments := Reconciled(s.deployments[i := row], d.project, d.environment),
                               history := s.history + if submits then [ReleaseChanged(i, PendingReview)] else []))
  {
    var d := s.deployments[i];
    if d.build in {Building, BuildReady} {
      var settled := FinalizeShape(s, i, mode, FinalizeReady(s, i, mode).value);
      ReconciledOnce(settled, i);
      var ready := SetRow(s, i, d.(build := BuildReady));
      if mode.ManualReview? && d.release.Draft? {
        SubmissionWrites(ready, i, settled);
        assert settled.deployments == s.deployments[i := d.(build := BuildReady, release := PendingReview)];
      } else {
        assert settled.history == s.history + [];
      }
    }
  }

  lemma SubmissionWrites(s: State, i: nat, s': State)
    requires i < |s.deployments| && ChangeRelease(s, i, PendingReview) == Ok(s')
    ensures s' == s.(deployments := s.deployments[i := s.deployments[i].(release := PendingReview)],
                     history := s.history + [ReleaseChanged(i, PendingReview)])
  {
  }

  /** A build fails or is canceled until it ends. Then its environment is reconciled, and unless its release is waiting or it is
      Active in production it gives up its node. */
  lemma UnsuccessfulExactly(s: State, i: nat, to: BuildStatus)
    requires i < |s.deployments|
    ensures var d := s.deployments[i];
            var r := TransitionUnsuccessfulBuild(s, i, to);
            && (r.Ok? <==> to in {BuildFailed, BuildCanceled} && d.build in {BuildPending, Claimed, Queued, Building})
            && (r == Err(Conflict) <==> to !in {BuildFailed, BuildCanceled})
            && (r.Err? && to in {BuildFailed, BuildCanceled} ==> r == Err(InvalidState(InvalidBuildTransition)))
            && (r.Ok? ==>
                 && r.value == s.(deployments := Reconciled(s.deployments[i := d.(build := to)], d.project, d.environment))
                 && (d.pending.None? && !(d.environment == Production && d.release == Active) ==>
                      i < |r.value.deployments| && r.value.deployments[i] == d.(build := to, serve := Retired, serveNode := None)))
  {
    var d := s.deployments[i];
    if to in {BuildFailed, BuildCanceled} && CanTransitionBuild(d.build, to) {
      StoppedIsRetired(s.deployments[i := d.(build := to)], i);
      ReconciledOnce(SetRow(s, i, d.(build := to)), i);
    }
  }

  lemma StoppedIsRetired(ds: seq<Deployment>, i: nat)
    requires i < |ds| && ds[i].build in {BuildFailed, BuildCanceled}
    ensures ds[i].pending.None? && !(ds[i].environment == Production && ds[i].release == Active) ==>
              Reconciled(ds, ds[i].project, ds[i].environment)[i] == ds[i].(serve := Retired, serveNode := None)
  {
  }

  // --- Release requests --------------------------------------------------------------------------------

  predicate SomeReleaseWaits(ds: seq<Deployment>, project: nat, environment: Environment) {
    exists k: nat :: k < |ds| && ds[k].project == project && ds[k].environment == environment && ds[k].pending != None
  }

  predicate IsServed(d: Deployment) {
    d.serveNode != None && d.serve == ServeReady
  }

  predicate Homeless(d: Deployment) {
    d.serveNode == None || d.serve == Retired
  }

  /** A release request is refused while any release of its environment waits. A served deployment it then publishes, if its
      build is ready and its release a draft or approved; any other it queues, if it has a node or the scheduler grants it one in
      its region. */
  lemma RequestAnswers(s: State, i: nat, reason: ReleaseReason, chosen: Option<Placement>, now: int)
    requires i < |s.deployments|
    ensures var d := s.deployments[i];
            var r := RequestRelease(s, i, reason, chosen, now);
            var waits := SomeReleaseWaits(s.deployments, d.project, d.environment);
            var granted := chosen.Some? && IsGranted(s, now, d.resources, Some(d.region), None, chosen.value);
            && (r == Err(ReleaseAlreadyPending) <==> waits)
            && (r == Err(Unschedulable) <==> !waits && !IsServed(d) && Homeless(d) && !granted)
            && (r == Err(InvalidState(InvalidReleaseTransition)) <==>
                  !waits && IsServed(d) && d.build == BuildReady && d.release !in {Draft, Approved})
            && (r == Err(InvalidState(BuildNotReady)) <==> !waits && IsServed(d) && d.build != BuildReady)
            && (r.Ok? <==> !waits && if IsServed(d) then d.build == BuildReady && d.release in {Draft, Approved} else !Homeless(d) || granted)
  {
    var d := s.deployments[i];
    WaitingMeans(s.deployments, i);
    if IsServed(d) { RequestOfServed(s, i, reason, chosen, now); } else { RequestOfUnserved(s, i, reason, chosen, now); }
  }

  lemma RequestOfUnserved(s: State, i: nat, reason: ReleaseReason, chosen: Option<Placement>, now: int)
    requires i < |s.deployments| && !IsServed(s.deployments[i])
    ensures var d := s.deployments[i];
            var r := RequestRelease(s, i, reason, chosen, now);
            if PendingElsewhere(s.deployments, i) then r == Err(ReleaseAlreadyPending)
            else if Homeless(d) && !(chosen.Some? && IsGranted(s, now, d.resources, Some(d.region), None, chosen.value)) then r == Err(Unschedulable)
            else r.Ok?
  {
    var d := s.deployments[i];
    if chosen.Some? { PlacementExactly(s, now, d.resources, Some(d.region), None, chosen.value); }
    assert PendingElsewhere(s.deployments, i) || RequestRelease(s, i, reason, chosen, now) == QueueRelease(s, i, reason, chosen, now);
  }

  lemma WaitingMeans(ds: seq<Deployment>, i: nat)
    requires i < |ds|
    ensures PendingElsewhere(ds, i) <==> SomeReleaseWaits(ds, ds[i].project, ds[i].environment)
  {
  }

  lemma RequestOfServed(s: State, i: nat, reason: ReleaseReason, chosen: Option<Placement>, now: int)
    requires i < |s.deployments| && IsServed(s.deployments[i])
    ensures var d := s.deployments[i];
            RequestRelease(s, i, reason, chosen, now) ==
              if PendingElsewhere(s.deployments, i) then Err(ReleaseAlreadyPending)
              else if d.build != BuildReady then Err(InvalidState(BuildNotReady))
              else if d.release !in {Draft, Approved} then Err(InvalidState(InvalidReleaseTransition))
              else ActivateAndReconcile(s, i, reason)
    ensures s.deployments[i].build == BuildReady && s.deployments[i].release in {Draft, Approved} ==> ActivateAndReconcile(s, i, reason).Ok?
  {
  }

  /** The deployment is published: its row and the one it replaces changed, its environment was reconciled, and one release row
      and its log were written. */
  ghost predicate Publishes(s: State, i: nat, reason: ReleaseReason, s': State)
    requires i < |s.deployments|
  {
    var d := s.deployments[i];
    && s'.nodes == s.nodes && s'.jobs == s.jobs
    && (exists ds: seq<Deployment> :: ActivatedRows(s.deployments, ds, i) && s'.deployments == Reconciled(ds, d.project, d.environment))
    && exists previous :: Replaces(s.deployments, i, previous) && ActivationLogged(s, s', i, reason, previous)
  }

  /** What a granted request writes. */
  lemma RequestWrites(s: State, i: nat, reason: ReleaseReason, chosen: Option<Placement>, now: int, s': State)
    requires i < |s.deployments| && OneActivePerEnvironment(s.deployments) && RequestRelease(s, i, reason, chosen, now) == Ok(s')
    ensures IsServed(s.deployments[i]) ==> Publishes(s, i, reason, s')
    ensures !IsServed(s.deployments[i]) ==> QueuedOnNode(s, i, reason, chosen, s')
  {
    var settled := RequestShape(s, i, reason, chosen, now);
    ReconciledOnce(settled, i);
    if IsServed(s.deployments[i]) { ActivatedPublishes(s, i, reason, settled); }
  }

  /** The deployment waits for its release, on the node it has or on the one it was granted. */
  predicate QueuedOnNode(s: State, i: nat, reason: ReleaseReason, chosen: Option<Placement>, s': State)
    requires i < |s.deployments|
  {
    var d := s.deployments[i];
    && (Homeless(d) ==> chosen.Some?)
    && var row := if Homeless(d) then d.(serveNode := Some(chosen.value.nodeId), overcommitted := chosen.value.overcommitted,
                                         serve := ServePending, pending := Some(reason))
                  else d.(pending := Some(reason));
    s' == s.(deployments := Reconciled(s.deployments[i := row], d.project, d.environment))
  }

  lemma ActivatedPublishes(s: State, i: nat, reason: ReleaseReason, activated: State)
    requires i < |s.deployments| && OneActivePerEnvironment(s.deployments) && Activate(s, i, reason) == Ok(activated)
    ensures i < |activated.deployments| && Publishes(s, i, reason, ReconcileAround(activated, i))
  {
    var previous := ActivationWrites(s, i, reason, activated);
    ReconciledOnce(activated, i);
  }

  // --- The release handlers ----------------------------------------------------------------------------

  /** A promotion or rollback is refused for what was not ready, or was active, rejected or under review, when its handler read
      it; a draft under manual review it submits; and for everything else it requests the release. */
  lemma ActivationDecision(s: State, i: nat, seenReady: bool, seen: ReleaseStatus, reason: ReleaseReason, mode: ReviewMode,
                           chosen: Option<Placement>, now: int)
    requires i < |s.deployments|
    ensures var r := ActivateDeployment(s, i, seenReady, seen, reason, mode, chosen, now);
            && (!seenReady || seen in {Active, Rejected, PendingReview} ==> r == Err(Conflict))
            && (seenReady && seen == Draft && mode == ManualReview ==> r == ChangeRelease(s, i, PendingReview))
            && (seenReady && (seen == Approved || (seen == Draft && mode == AutoReview)) ==> r == RequestRelease(s, i, reason, chosen, now))
  {
  }

  /** What one change of a release status answers and writes. */
  lemma ChangeExactly(s: State, i: nat, to: ReleaseStatus)
    requires i < |s.deployments|
    ensures var d := s.deployments[i];
            var r := ChangeRelease(s, i, to);
            && (r.Ok? <==> TransitionRelease(d, to).Ok?)
            && (r.Ok? ==> r.value == s.(deployments := s.deployments[i := d.(release := to)], history := s.history + [ReleaseChanged(i, to)]))
  {
  }

  predicate Reviewable(d: Deployment) {
    d.build == BuildReady && (d.serve == ServeReady || d.serve == Retired)
  }

  /** A review is decided while it is open and what was built can be looked at. A rejection only writes the status; an approval
      also requests the release, of the approved deployment, for the reason Promote. */
  lemma ReviewDecision(s: State, i: nat, approved: bool, chosen: Option<Placement>, now: int)
    requires i < |s.deployments|
    ensures var d := s.deployments[i];
            var r := ResolveReview(s, i, approved, chosen, now);
            if !Reviewable(d) || d.release != PendingReview then r == Err(Conflict)
            else if !approved then
              r == Ok(s.(deployments := s.deployments[i := d.(release := Rejected)], history := s.history + [ReleaseChanged(i, Rejected)]))
            else
              r == RequestRelease(s.(deployments := s.deployments[i := d.(release := Approved)],
                                     history := s.history + [ReleaseChanged(i, Approved), ReviewApproved(i)]), i, Promote, chosen, now)
  {
    var d := s.deployments[i];
    if Reviewable(d) && d.release == PendingReview && approved {
      var changed := ChangeRelease(s, i, Approved).value;
      assert changed.history + [ReviewApproved(i)] == s.history + [ReleaseChanged(i, Approved), ReviewApproved(i)];
    }
  }

  /** A republication is refused under review and while Active. Under manual review what is not approved is submitted, which a
      retired rejected one cannot be; under automatic review a rejected one is submitted and approved first. */
  lemma RepublicationDecision(s: State, i: nat, mode: ReviewMode, chosen: Option<Placement>, now: int)
    requires i < |s.deployments|
    ensures var d := s.deployments[i];
            var r := Republish(s, i, mode, chosen, now);
            if !Reviewable(d) || d.release in {PendingReview, Active} then r == Err(Conflict)
            else if d.release == Rejected && d.serve != ServeReady then r == Err(InvalidState(ServeNotReady))
            else if mode == ManualReview && d.release in {Draft, Rejected} then
              r == Ok(s.(deployments := s.deployments[i := d.(release := PendingReview)], history := s.history + [ReleaseChanged(i, PendingReview)]))
            else if d.release == Rejected then
              r == RequestRelease(s.(deployments := s.deployments[i := d.(release := Approved)],
                                     history := s.history + [ReleaseChanged(i, PendingReview), ReleaseChanged(i, Approved)]), i, Promote, chosen, now)
            else r == RequestRelease(s, i, Promote, chosen, now)
  {
    var d := s.deployments[i];
    if Reviewable(d) && d.release == Rejected && d.serve == ServeReady && mode == AutoReview {
      var resubmitted := ChangeRelease(s, i, PendingReview).value;
      var approved := ChangeRelease(resubmitted, i, Approved).value;
      assert approved.deployments == s.deployments[i := d.(release := Approved)];
      assert approved.history == s.history + [ReleaseChanged(i, PendingReview), ReleaseChanged(i, Approved)];
    }
  }

  /** A team's withdrawal leaves the deployment approved, an administrator's leaves it a draft. It does nothing to one that is so
      and retired already, is refused from a status that does not lead there, and otherwise takes the deployment off its node, ends
      its waiting and reconciles its environment. */
  lemma RemovalExactly(s: State, i: nat, kind: PublicationRemovalKind)
    requires i < |s.deployments|
    ensures var d := s.deployments[i];
            var r := RemovePublication(s, i, kind);
            var to := if kind == TeamUser then Approved else Draft;
            && (r.Ok? <==> (d.release == to && d.serve == Retired) || d.release == Active
                           || (kind == TeamUser && d.release == PendingReview && Reviewable(d)))
            && (r.Ok? && d.release == to && d.serve == Retired ==> r.value == s)
            && (r.Ok? && !(d.release == to && d.serve == Retired) ==>
                 var row := d.(release := to, serve := Retired, serveNode := None, pending := None);
                 r.value == s.(deployments := Reconciled(s.deployments[i := row], d.project, d.environment),
                               history := s.history + [ReleaseChanged(i, to)]))
  {
    var d := s.deployments[i];
    var to := PublicationRemovalTarget(kind);
    ReleaseOrigins(d, to);
    ChangeExactly(s, i, to);
    if !(d.release == to && d.serve == Retired) && ChangeRelease(s, i, to).Ok? {
      var changed := ChangeRelease(s, i, to).value;
      var removed := SetRow(changed, i, Unassigned(changed.deployments[i]).(pending := None));
      ReconciledOnce(removed, i);
      assert removed.deployments == s.deployments[i := d.(release := to, serve := Retired, serveNode := None, pending := None)];
    }
  }
}
