/** What a release request leads to, across the transactions that carry it out. */
module ReleaseFlow {
  import opened Basics
  import opened Lifecycle
  import opened Scheduler
  import opened Delivery
  import opened ControlPlane
  import opened ReleaseInvariants

  /** Deployment `i` was published now: it is Active and the last release row says so, with its reason. */
  ghost predicate PublishedNow(s: State, s': State, i: nat, reason: ReleaseReason)
    requires i < |s.deployments|
  {
    && |s'.deployments| == |s.deployments| && s'.deployments[i].release.Active?
    && |s'.releases| == |s.releases| + 1 && s'.releases[..|s.releases|] == s.releases
    && s'.releases[|s.releases|].deployment == i && s'.releases[|s.releases|].reason == reason
    && SameEnvironment(s'.deployments[i], s.deployments[i])
  }

  lemma ActivatePublishes(s: State, i: nat, reason: ReleaseReason)
    requires i < |s.deployments| && Activate(s, i, reason).Ok?
    ensures PublishedNow(s, Activate(s, i, reason).value, i, reason)
    ensures Activate(s, i, reason).value.deployments[i].pending == s.deployments[i].pending
  {
  }

  lemma ReconcileKeepsRelease(s: State, i: nat, k: nat)
    requires i < |s.deployments| && k < |s.deployments|
    ensures var s' := ReconcileAround(s, i);
            && |s'.deployments| == |s.deployments| && s'.releases == s.releases
            && s'.deployments[k].release == s.deployments[k].release && s'.deployments[k].pending == s.deployments[k].pending
            && SameEnvironment(s'.deployments[k], s.deployments[k])
            && (s.deployments[k].pending.Some? ==> s'.deployments[k] == s.deployments[k])
  {
    assert CandidateOf(s.deployments, k) in Candidates(s.deployments, s.deployments[i].project, s.deployments[i].environment)
           <==> InEnvironment(s.deployments[k], s.deployments[i].project, s.deployments[i].environment);
  }

  /** A granted request publishes a served deployment at once. Any other one it queues with the reason asked
      for, on a node, and keeps it there: reconciling does not retire it and no release row is written. */
  lemma RequestOutcome(s: State, i: nat, reason: ReleaseReason, chosen: Option<Placement>, now: int)
    requires i < |s.deployments|
    requires RequestRelease(s, i, reason, chosen, now).Ok?
    ensures var d := s.deployments[i];
            var s' := RequestRelease(s, i, reason, chosen, now).value;
            if d.serveNode.Some? && d.serve.ServeReady? then PublishedNow(s, s', i, reason)
            else && |s'.deployments| == |s.deployments| && s'.releases == s.releases
                 && s'.deployments[i].pending == Some(reason) && s'.deployments[i].release == d.release
                 && s'.deployments[i].serveNode.Some? && !s'.deployments[i].serve.Retired?
  {
    var d := s.deployments[i];
    if d.serveNode.Some? && d.serve.ServeReady? {
      ActivatePublishes(s, i, reason);
      ReconcileKeepsRelease(Activate(s, i, reason).value, i, i);
    } else {
      var target := if d.serveNode.None? || d.serve.Retired? then Placed(d, chosen.value) else d;
      var queued := SetRow(s, i, target.(pending := Some(reason)));
      assert RequestRelease(s, i, reason, chosen, now).value == ReconcileAround(queued, i);
      ReconcileKeepsRelease(queued, i, i);
    }
  }

  /** The report that its node serves a waiting deployment succeeds if and only if its release is still Draft or
      Approved; then it carries the release out, with the reason it was queued with. */
  lemma QueuedReleaseCompletes(s: State, i: nat, n: nat, capable: bool, job: Option<nat>, mode: ReviewMode)
    requires i < |s.deployments|
    requires s.deployments[i].pending.Some? && s.deployments[i].serve.Syncing? && s.deployments[i].serveNode == Some(n)
    ensures var d := s.deployments[i];
            var r := ReportServeStatus(s, i, n, capable, ServeReady, job, mode);
            && (r.Ok? <==> n < |s.nodes| && capable && d.build.BuildReady? && (d.release.Draft? || d.release.Approved?))
            && (r.Ok? ==> PublishedNow(s, r.value, i, d.pending.value) && r.value.deployments[i].pending.None?)
  {
    var d := s.deployments[i];
    if n < |s.nodes| && capable && d.build.BuildReady? {
      var served := SetRow(s, i, d.(serve := ServeReady));
      assert TransitionServe(d, ServeReady) == Ok(d.(serve := ServeReady));
      assert ReportServeStatus(s, i, n, capable, ServeReady, job, mode) == CompleteServeReady(served, i, mode);
      if d.release.Draft? || d.release.Approved? { CompletionPublishes(served, i, mode); } else { CompletionFails(served, i, mode); }
    }
  }

  lemma CompletionFails(s: State, i: nat, mode: ReviewMode)
    requires i < |s.deployments| && s.deployments[i].pending.Some? && s.deployments[i].serve.ServeReady?
    requires !s.deployments[i].release.Draft? && !s.deployments[i].release.Approved?
    ensures CompleteServeReady(s, i, mode).Err?
  {
    assert Activate(s, i, s.deployments[i].pending.value).Err?;
    assert CompletePendingRelease(s, i).Err?;
  }

  lemma CompletionPublishes(s: State, i: nat, mode: ReviewMode)
    requires i < |s.deployments|
    requires var d := s.deployments[i];
             d.pending.Some? && d.serve.ServeReady? && d.build.BuildReady? && (d.release.Draft? || d.release.Approved?)
    ensures var r := CompleteServeReady(s, i, mode);
            r.Ok? && PublishedNow(s, r.value, i, s.deployments[i].pending.value) && r.value.deployments[i].pending.None?
  {
    var d := s.deployments[i];
    assert Activate(s, i, d.pending.value).Ok?;
    ActivatePublishes(s, i, d.pending.value);
    var activated := Activate(s, i, d.pending.value).value;
    var cleared := SetRow(activated, i, activated.deployments[i].(pending := None));
    ReconcileKeepsRelease(cleared, i, i);
    var completed := ReconcileAround(cleared, i);
    assert CompletePendingRelease(s, i) == Ok(completed);
    ReconcileKeepsRelease(completed, i, i);
  }

  // --- Waiting releases that can still be carried out -------------------------------------------

  predicate Releasable(d: Deployment) { d.release.Draft? || d.release.Approved? }

  ghost predicate WaitingReleasable(s: State) {
    forall i: nat :: i < |s.deployments| && s.deployments[i].pending.Some? ==> Releasable(s.deployments[i])
  }

  ghost predicate WaitingApproved(s: State) {
    forall i: nat :: i < |s.deployments| && s.deployments[i].pending.Some? ==> s.deployments[i].release.Approved?
  }

  /** A draft that waits for its release is submitted to review: by a repeated report that its build is ready, a
      promotion or a republication, under manual review. */
  predicate SubmitsWaiting(s: State, a: Action) {
    && (a.AFinalizeReady? || a.AActivate? || a.ARepublish?) && a.mode.ManualReview? && a.deployment < |s.deployments|
    && var d := s.deployments[a.deployment];
    && d.pending.Some? && d.release.Draft?
    && (if a.AFinalizeReady? then d.build.BuildReady? || d.build.Building?
        else if a.AActivate? then d.build.BuildReady? && a.seenReady && a.seenRelease.Draft?
        else ReviewableArtifact(d))
  }

  /** A handler queues a deployment that has been submitted, rejected or published since it read it. */
  predicate QueuesLate(s: State, a: Action) {
    Queues(s, a) && !Releasable(s.deployments[a.deployment])
  }

  predicate Strands(s: State, a: Action) {
    SubmitsWaiting(s, a) || QueuesLate(s, a)
  }

  /** The release a handler acted on is the one the deployment still has, and the mode is this one. */
  predicate Timely(s: State, a: Action, mode: ReviewMode) {
    && (a.AFinalizeReady? || a.AServeReport? || a.AActivate? || a.ARepublish? ==> a.mode == mode)
    && (a.AActivate? && a.deployment < |s.deployments| ==> a.seenRelease == s.deployments[a.deployment].release)
  }

  ghost predicate WaitDecided(s: State, a: Action, s': State) {
    && (WaitingReleasable(s) ==> (WaitingReleasable(s') <==> !Strands(s, a)))
    && (WaitingApproved(s) && Timely(s, a, ManualReview) ==> WaitingApproved(s'))
  }

  /** Nothing begins to wait, and what keeps waiting keeps its release or becomes Approved. */
  ghost predicate WaitsLess(s: State, s': State) {
    forall k: nat :: k < |s'.deployments| && s'.deployments[k].pending.Some? ==>
      && k < |s.deployments| && s.deployments[k].pending.Some?
      && (s'.deployments[k].release == s.deployments[k].release || s'.deployments[k].release.Approved?)
  }

  lemma ReconcileWaitsLess(s: State, i: nat)
    requires i < |s.deployments|
    ensures WaitsLess(s, ReconcileAround(s, i))
    ensures forall k: nat :: k < |s.deployments| && s.deployments[k].pending.Some? ==>
              ReconcileAround(s, i).deployments[k] == s.deployments[k]
  {
    forall k: nat | k < |s.deployments|
      ensures ReconcileAround(s, i).deployments[k].pending == s.deployments[k].pending
      ensures ReconcileAround(s, i).deployments[k].release == s.deployments[k].release
      ensures s.deployments[k].pending.Some? ==> ReconcileAround(s, i).deployments[k] == s.deployments[k]
    {
      ReconcileKeepsRelease(s, i, k);
    }
  }

  lemma ActivateWaitsLess(s: State, i: nat, reason: ReleaseReason, s': State)
    requires i < |s.deployments| && Activate(s, i, reason) == Ok(s')
    ensures |s'.deployments| == |s.deployments| && s'.deployments[i].pending == s.deployments[i].pending
    ensures forall k: nat :: k < |s.deployments| && k != i ==>
              && s'.deployments[k].pending == s.deployments[k].pending
              && (s'.deployments[k].release == s.deployments[k].release || s'.deployments[k].release.Approved?)
  {
  }

  /** Queuing a release of deployment `i` leaves the other rows' waiting alone. */
  lemma QueueDecides(s: State, i: nat, d': Deployment, s': State)
    requires i < |s.deployments| && d'.pending.Some? && d'.release == s.deployments[i].release
    requires s' == ReconcileAround(SetRow(s, i, d'), i)
    ensures WaitingReleasable(s) ==> (WaitingReleasable(s') <==> Releasable(s.deployments[i]))
    ensures WaitingApproved(s) && s.deployments[i].release.Approved? ==> WaitingApproved(s')
  {
    var queued := SetRow(s, i, d');
    ReconcileWaitsLess(queued, i);
    assert s'.deployments[i] == queued.deployments[i];
  }

  /** A release request makes something wait only when it queues it. */
  lemma RequestWaits(s: State, i: nat, reason: ReleaseReason, chosen: Option<Placement>, now: int, s': State)
    requires i < |s.deployments| && RequestRelease(s, i, reason, chosen, now) == Ok(s')
    ensures WaitingReleasable(s) ==>
              (WaitingReleasable(s') <==> Releasable(s.deployments[i]) || (s.deployments[i].serveNode.Some? && s.deployments[i].serve.ServeReady?))
    ensures WaitingApproved(s) && s.deployments[i].release.Approved? ==> WaitingApproved(s')
  {
    var d := s.deployments[i];
    if d.serveNode.Some? && d.serve.ServeReady? {
      var activated := Activate(s, i, reason).value;
      assert d.pending.None?;
      ActivateWaitsLess(s, i, reason, activated);
      ReconcileWaitsLess(activated, i);
      assert WaitsLess(s, s');
    } else if d.serveNode.None? || d.serve.Retired? {
      QueueDecides(s, i, Placed(d, chosen.value).(pending := Some(reason)), s');
    } else {
      QueueDecides(s, i, d.(pending := Some(reason)), s');
    }
  }

  lemma SubmissionDecides(s: State, i: nat, s': State)
    requires i < |s.deployments| && ChangeRelease(s, i, PendingReview) == Ok(s')
    ensures WaitingReleasable(s) ==> (WaitingReleasable(s') <==> s.deployments[i].pending.None?)
    ensures WaitingApproved(s) ==> WaitingApproved(s')
  {
    assert s'.deployments[i].release.PendingReview? && s'.deployments[i].pending == s.deployments[i].pending;
  }

  lemma CompletionWaitsLess(s: State, i: nat, mode: ReviewMode, s': State)
    requires i < |s.deployments| && CompleteServeReady(s, i, mode) == Ok(s')
    ensures WaitsLess(s, s')
  {
    var d := s.deployments[i];
    if d.pending.Some? && d.serve.ServeReady? {
      var activated := Activate(s, i, d.pending.value).value;
      ActivateWaitsLess(s, i, d.pending.value, activated);
      var cleared := SetRow(activated, i, activated.deployments[i].(pending := None));
      ReconcileWaitsLess(cleared, i);
      ReconcileWaitsLess(ReconcileAround(cleared, i), i);
    } else if d.pending.None? && mode.AutoReview? && d.release.Draft? {
      var activated := Activate(s, i, Auto).value;
      ActivateWaitsLess(s, i, Auto, activated);
      ReconcileWaitsLess(activated, i);
    } else {
      ReconcileWaitsLess(s, i);
    }
  }

  lemma ServeReportWaits(s: State, a: Action, s': State)
    requires a.AServeReport? && a.deployment < |s.deployments| && DeploymentStep(s, a) == Ok(s')
    ensures WaitsLess(s, s')
  {
    var d := s.deployments[a.deployment];
    if d.serveNode == Some(a.node) && a.serve.ServeReady? {
      CompletionWaitsLess(SetRow(s, a.deployment, d.(serve := ServeReady)), a.deployment, a.mode, s');
    }
  }

  lemma FinalizeWaits(s: State, a: Action, s': State)
    requires a.AFinalizeReady? && a.deployment < |s.deployments| && DeploymentStep(s, a) == Ok(s')
    ensures WaitDecided(s, a, s')
  {
    var i := a.deployment;
    var d := s.deployments[i].(build := BuildReady);
    var ready := SetRow(s, i, d);
    var settled := FinalizeShape(s, i, a.mode, s');
    ReconcileWaitsLess(settled, i);
    if a.mode.ManualReview? && d.release.Draft? {
      SubmissionDecides(ready, i, settled);
      assert settled.deployments[i].pending.Some? ==> s'.deployments[i] == settled.deployments[i];
      FinalizeNeedsBuild(s, a);
    } else {
      assert WaitsLess(s, s');
    }
  }

  lemma FinalizeNeedsBuild(s: State, a: Action)
    requires a.AFinalizeReady? && a.deployment < |s.deployments| && DeploymentStep(s, a).Ok?
    ensures s.deployments[a.deployment].build.BuildReady? || s.deployments[a.deployment].build.Building?
  {
  }

  lemma ReviewWaits(s: State, a: Action, s': State)
    requires a.AReview? && a.deployment < |s.deployments| && DeploymentStep(s, a) == Ok(s')
    ensures WaitDecided(s, a, s')
  {
    var i := a.deployment;
    if a.approved {
      var changed := ChangeRelease(s, i, Approved).value;
      var approved := changed.(history := changed.history + [ReviewApproved(i)]);
      RequestWaits(approved, i, Promote, a.chosen, a.now, s');
    }
  }

  lemma RepublishWaits(s: State, a: Action, s': State)
    requires a.ARepublish? && a.deployment < |s.deployments| && DeploymentStep(s, a) == Ok(s')
    ensures WaitDecided(s, a, s')
  {
    var i := a.deployment;
    var d := s.deployments[i];
    if a.mode.ManualReview? && !d.release.Approved? {
      SubmissionDecides(s, i, s');
    } else if d.release.Rejected? {
      var resubmitted := ChangeRelease(s, i, PendingReview).value;
      RequestWaits(ChangeRelease(resubmitted, i, Approved).value, i, Promote, a.chosen, a.now, s');
    } else {
      RequestWaits(s, i, Promote, a.chosen, a.now, s');
    }
  }

  lemma ActivationWaits(s: State, a: Action, s': State)
    requires a.AActivate? && a.deployment < |s.deployments| && DeploymentStep(s, a) == Ok(s')
    ensures WaitDecided(s, a, s')
  {
    if a.seenRelease.Draft? && a.mode.ManualReview? {
      SubmissionDecides(s, a.deployment, s');
    } else {
      RequestWaits(s, a.deployment, a.reason, a.chosen, a.now, s');
    }
  }

  lemma DeploymentStepWaits(s: State, a: Action, s': State)
    requires OnDeployment(a) && a.deployment < |s.deployments| && DeploymentStep(s, a) == Ok(s')
    ensures WaitDecided(s, a, s')
  {
    if a.AServeReport? { ServeReportWaits(s, a, s'); }
    else if a.AFinalizeReady? { FinalizeWaits(s, a, s'); }
    else if a.AReview? { ReviewWaits(s, a, s'); }
    else if a.ARepublish? { RepublishWaits(s, a, s'); }
    else if a.AActivate? { ActivationWaits(s, a, s'); }
    else { OtherStepsWaitLess(s, a, s'); }
  }

  lemma OtherStepsWaitLess(s: State, a: Action, s': State)
    requires a.AClaim? || a.ABuildProgress? || a.AUnsuccessful? || a.ARemovePublication? || a.AUpload?
    requires a.deployment < |s.deployments| && DeploymentStep(s, a) == Ok(s')
    ensures WaitsLess(s, s')
  {
    var i := a.deployment;
    if a.AUnsuccessful? {
      ReconcileWaitsLess(SetRow(s, i, s.deployments[i].(build := a.build)), i);
    } else if a.ARemovePublication? && !(s.deployments[i].release == PublicationRemovalTarget(a.kind) && s.deployments[i].serve.Retired?) {
      var changed := ChangeRelease(s, i, PublicationRemovalTarget(a.kind)).value;
      ReconcileWaitsLess(SetRow(changed, i, Unassigned(changed.deployments[i]).(pending := None)), i);
    }
  }

  /** One transaction keeps every waiting release releasable if and only if it does not submit a waiting draft to
      review and does not queue, on a late read, a deployment that has moved on. */
  lemma StepDecidesWaiting(s: State, a: Action)
    ensures WaitDecided(s, a, Step(s, a))
  {
    if OnDeployment(a) {
      StepOnDeployment(s, a);
      if a.deployment < |s.deployments| && DeploymentStep(s, a).Ok? {
        DeploymentStepWaits(s, a, DeploymentStep(s, a).value);
      } else if a.deployment < |s.deployments| && Strands(s, a) {
        StrandingCommits(s, a);
      }
    } else if a.ACreate? {
      var _ := CreateShape(s, a);
    } else {
      SystemStepWaitsLess(s, a);
    }
  }

  lemma SystemStepWaitsLess(s: State, a: Action)
    requires !OnDeployment(a) && !a.ACreate?
    ensures WaitsLess(s, Step(s, a))
  {
    if a.AProcessJob? && a.job < |s.jobs| { ProcessJobRows(s, a.job, a.now, a.invalidArtifacts); }
  }

  lemma StrandingCommits(s: State, a: Action)
    requires OnDeployment(a) && a.deployment < |s.deployments| && Strands(s, a)
    ensures DeploymentStep(s, a).Ok?
  {
    if QueuesLate(s, a) {
      QueueGrants(s, a.deployment, a.reason, a.chosen, a.now);
      QueuingCommits(s, a);
    } else {
      SubmittingCommits(s, a);
    }
  }

  lemma SubmittingCommits(s: State, a: Action)
    requires SubmitsWaiting(s, a)
    ensures DeploymentStep(s, a).Ok?
  {
    var d := s.deployments[a.deployment];
    if a.AFinalizeReady? {
      var ready := SetRow(s, a.deployment, d.(build := BuildReady));
      assert ChangeRelease(ready, a.deployment, PendingReview).Ok?;
    } else {
      assert ChangeRelease(s, a.deployment, PendingReview).Ok?;
    }
  }

  ghost predicate NeverStrands(actions: seq<Action>) {
    forall k: nat :: k < |actions| ==> !Strands(Run(actions[..k]), actions[k])
  }

  /** Every waiting release can be carried out in every state of a run if and only if no transaction of the run
      stranded one. */
  lemma WaitingStaysReleasable(actions: seq<Action>)
    ensures (forall k: nat :: k <= |actions| ==> WaitingReleasable(Run(actions[..k]))) <==> NeverStrands(actions)
  {
    if forall k: nat :: k <= |actions| ==> WaitingReleasable(Run(actions[..k])) {
      forall k: nat | k < |actions| ensures !Strands(Run(actions[..k]), actions[k]) {
        RunPrefix(actions, k);
        assert WaitingReleasable(Run(actions[..k])) && WaitingReleasable(Run(actions[..k + 1]));
        StepDecidesWaiting(Run(actions[..k]), actions[k]);
      }
    }
    if NeverStrands(actions) {
      forall k: nat | k <= |actions| ensures WaitingReleasable(Run(actions[..k])) { ReleasableAfter(actions, k); }
    }
  }

  lemma {:induction false} ReleasableAfter(actions: seq<Action>, k: nat)
    requires NeverStrands(actions) && k <= |actions|
    ensures WaitingReleasable(Run(actions[..k]))
  {
    if k > 0 {
      ReleasableAfter(actions, k - 1);
      RunPrefix(actions, k - 1);
      assert !Strands(Run(actions[..k - 1]), actions[k - 1]);
      StrandingNothingKeeps(Run(actions[..k - 1]), actions[k - 1], Run(actions[..k]));
    }
  }

  lemma StrandingNothingKeeps(s: State, a: Action, s': State)
    requires WaitingReleasable(s) && !Strands(s, a) && s' == Step(s, a)
    ensures WaitingReleasable(s')
  {
    StepDecidesWaiting(s, a);
  }

  /** When the review mode never changes and no handler acts on an outdated release status, nothing is stranded. */
  lemma {:induction false} ConstantModeStrandsNothing(actions: seq<Action>, mode: ReviewMode, k: nat)
    requires forall j: nat :: j < |actions| ==> Timely(Run(actions[..j]), actions[j], mode)
    requires k <= |actions|
    ensures WaitingReleasable(Run(actions[..k])) && (mode.ManualReview? ==> WaitingApproved(Run(actions[..k])))
  {
    if k > 0 {
      ConstantModeStrandsNothing(actions, mode, k - 1);
      RunPrefix(actions, k - 1);
      assert Timely(Run(actions[..k - 1]), actions[k - 1], mode);
      TimelyStepStrandsNothing(Run(actions[..k - 1]), actions[k - 1], mode, Run(actions[..k]));
    }
  }

  lemma TimelyStepStrandsNothing(s: State, a: Action, mode: ReviewMode, s': State)
    requires WaitingReleasable(s) && (mode.ManualReview? ==> WaitingApproved(s)) && Timely(s, a, mode) && s' == Step(s, a)
    ensures WaitingReleasable(s') && (mode.ManualReview? ==> WaitingApproved(s'))
  {
    StepDecidesWaiting(s, a);
  }

  // --- Stranded releases ---------------------------------------------------------------------------

  /** The deployment waits for its release while its review is open or was rejected, and is not served. */
  predicate Stranded(d: Deployment) {
    (d.release.PendingReview? || d.release.Rejected?) && d.pending.Some? && !d.serve.ServeReady? && !d.serve.Retired?
  }

  /** No transaction frees it: it cannot be served, reviewed, withdrawn, promoted, republished or rolled back. */
  lemma StrandedStays(s: State, a: Action, i: nat)
    requires i < |s.deployments| && Stranded(s.deployments[i])
    ensures i < |Step(s, a).deployments| && Stranded(Step(s, a).deployments[i])
    ensures SameEnvironment(Step(s, a).deployments[i], s.deployments[i])
  {
    if OnDeployment(a) {
      if a.deployment < |s.deployments| {
        if DeploymentStep(s, a).Ok? {
          if a.deployment == i { OwnStepKeepsStranded(s, a, DeploymentStep(s, a).value); }
          else { OtherStepKeepsStranded(s, a, i, DeploymentStep(s, a).value); }
        }
      }
    } else if a.ACreate? {
      var _ := CreateShape(s, a);
    } else if a.AProcessJob? && a.job < |s.jobs| {
      ProcessJobRows(s, a.job, a.now, a.invalidArtifacts);
    }
  }

  lemma OwnStepKeepsStranded(s: State, a: Action, s': State)
    requires OnDeployment(a) && a.deployment < |s.deployments| && Stranded(s.deployments[a.deployment])
    requires DeploymentStep(s, a) == Ok(s')
    ensures a.deployment < |s'.deployments| && Stranded(s'.deployments[a.deployment])
    ensures SameEnvironment(s'.deployments[a.deployment], s.deployments[a.deployment])
  {
    var i := a.deployment;
    var d := s.deployments[i];
    if a.AFinalizeReady? {
      ReconcileWaitsLess(SetRow(s, i, d.(build := BuildReady)), i);
      assert d.build.BuildReady? ==> SetRow(s, i, d.(build := BuildReady)) == s;
    } else if a.AUnsuccessful? {
      ReconcileWaitsLess(SetRow(s, i, d.(build := a.build)), i);
    } else if a.AServeReport? && d.serveNode == Some(a.node) && a.serve.ServeReady? {
      StrandedIsNotServed(s, a);
    }
  }

  /** The report that its node serves it fails. */
  lemma StrandedIsNotServed(s: State, a: Action)
    requires a.AServeReport? && a.deployment < |s.deployments| && Stranded(s.deployments[a.deployment])
    requires s.deployments[a.deployment].serveNode == Some(a.node) && a.serve.ServeReady?
    ensures DeploymentStep(s, a).Err?
  {
    var d := s.deployments[a.deployment];
    var served := SetRow(s, a.deployment, d.(serve := ServeReady));
    assert Activate(served, a.deployment, d.pending.value).Err?;
    assert CompletePendingRelease(served, a.deployment).Err?;
  }

  lemma ActivateKeepsStranded(s: State, i: nat, reason: ReleaseReason, k: nat, s': State)
    requires i < |s.deployments| && k < |s.deployments| && k != i && Stranded(s.deployments[k])
    requires Activate(s, i, reason) == Ok(s')
    ensures |s'.deployments| == |s.deployments| && s'.deployments[k] == s.deployments[k]
  {
  }

  lemma RequestKeepsStranded(s: State, i: nat, reason: ReleaseReason, chosen: Option<Placement>, now: int, k: nat, s': State)
    requires i < |s.deployments| && k < |s.deployments| && k != i && Stranded(s.deployments[k])
    requires RequestRelease(s, i, reason, chosen, now) == Ok(s')
    ensures |s'.deployments| == |s.deployments| && s'.deployments[k] == s.deployments[k]
  {
    var d := s.deployments[i];
    if d.serveNode.Some? && d.serve.ServeReady? {
      var activated := Activate(s, i, reason).value;
      ActivateKeepsStranded(s, i, reason, k, activated);
      ReconcileWaitsLess(activated, i);
    } else {
      var target := if d.serveNode.None? || d.serve.Retired? then Placed(d, chosen.value) else d;
      ReconcileWaitsLess(SetRow(s, i, target.(pending := Some(reason))), i);
    }
  }

  lemma ReportKeepsStranded(s: State, a: Action, k: nat, s': State)
    requires a.AServeReport? && a.deployment < |s.deployments| && DeploymentStep(s, a) == Ok(s')
    requires k < |s.deployments| && k != a.deployment && Stranded(s.deployments[k])
    ensures |s'.deployments| == |s.deployments| && s'.deployments[k] == s.deployments[k]
  {
    var i := a.deployment;
    var d := s.deployments[i];
    if d.serveNode == Some(a.node) && a.serve.ServeReady? {
      var served := SetRow(s, i, d.(serve := ServeReady));
      if d.pending.Some? {
        var activated := Activate(served, i, d.pending.value).value;
        ActivateKeepsStranded(served, i, d.pending.value, k, activated);
        var cleared := SetRow(activated, i, activated.deployments[i].(pending := None));
        ReconcileWaitsLess(cleared, i);
        ReconcileWaitsLess(ReconcileAround(cleared, i), i);
      } else if a.mode.AutoReview? && d.release.Draft? {
        var activated := Activate(served, i, Auto).value;
        ActivateKeepsStranded(served, i, Auto, k, activated);
        ReconcileWaitsLess(activated, i);
      } else {
        ReconcileWaitsLess(served, i);
      }
    }
  }

  lemma ReleaseStepKeepsStranded(s: State, a: Action, k: nat, s': State)
    requires (a.AActivate? || a.AReview? || a.ARepublish?) && a.deployment < |s.deployments| && DeploymentStep(s, a) == Ok(s')
    requires k < |s.deployments| && k != a.deployment && Stranded(s.deployments[k])
    ensures |s'.deployments| == |s.deployments| && s'.deployments[k] == s.deployments[k]
  {
    var i := a.deployment;
    var d := s.deployments[i];
    if a.AActivate? {
      if !(a.seenRelease.Draft? && a.mode.ManualReview?) { RequestKeepsStranded(s, i, a.reason, a.chosen, a.now, k, s'); }
    } else if a.AReview? {
      if a.approved {
        var changed := ChangeRelease(s, i, Approved).value;
        RequestKeepsStranded(changed.(history := changed.history + [ReviewApproved(i)]), i, Promote, a.chosen, a.now, k, s');
      }
    } else if a.mode.ManualReview? && !d.release.Approved? {
    } else if d.release.Rejected? {
      var resubmitted := ChangeRelease(s, i, PendingReview).value;
      RequestKeepsStranded(ChangeRelease(resubmitted, i, Approved).value, i, Promote, a.chosen, a.now, k, s');
    } else {
      RequestKeepsStranded(s, i, Promote, a.chosen, a.now, k, s');
    }
  }

  lemma BuildStepKeepsStranded(s: State, a: Action, k: nat, s': State)
    requires (a.AFinalizeReady? || a.AUnsuccessful? || a.ARemovePublication?) && a.deployment < |s.deployments|
    requires DeploymentStep(s, a) == Ok(s')
    requires k < |s.deployments| && k != a.deployment && Stranded(s.deployments[k])
    ensures |s'.deployments| == |s.deployments| && s'.deployments[k] == s.deployments[k]
  {
    var i := a.deployment;
    var d := s.deployments[i];
    if a.AFinalizeReady? {
      var settled := FinalizeShape(s, i, a.mode, s');
      ReconcileWaitsLess(settled, i);
    } else if a.AUnsuccessful? {
      ReconcileWaitsLess(SetRow(s, i, d.(build := a.build)), i);
    } else if !(d.release == PublicationRemovalTarget(a.kind) && d.serve.Retired?) {
      var changed := ChangeRelease(s, i, PublicationRemovalTarget(a.kind)).value;
      ReconcileWaitsLess(SetRow(changed, i, Unassigned(changed.deployments[i]).(pending := None)), i);
    }
  }

  /** A waiting row is desired, so no reconciliation around another deployment touches it. */
  lemma OtherStepKeepsStranded(s: State, a: Action, i: nat, s': State)
    requires OnDeployment(a) && a.deployment < |s.deployments| && DeploymentStep(s, a) == Ok(s')
    requires i < |s.deployments| && i != a.deployment && Stranded(s.deployments[i])
    ensures i < |s'.deployments| && s'.deployments[i] == s.deployments[i]
  {
    if a.AServeReport? { ReportKeepsStranded(s, a, i, s'); }
    else if a.AActivate? || a.AReview? || a.ARepublish? { ReleaseStepKeepsStranded(s, a, i, s'); }
    else if a.AFinalizeReady? || a.AUnsuccessful? || a.ARemovePublication? { BuildStepKeepsStranded(s, a, i, s'); }
  }

  /** Whatever transactions follow, the release stays stranded and every release of its environment is answered
      that one is pending already. */
  lemma {:induction false} StrandedForever(s: State, actions: seq<Action>, i: nat)
    requires i < |s.deployments| && Stranded(s.deployments[i])
    ensures var s' := RunFrom(s, actions);
            && i < |s'.deployments| && Stranded(s'.deployments[i]) && SameEnvironment(s'.deployments[i], s.deployments[i])
            && forall k: nat, reason: ReleaseReason, chosen: Option<Placement>, now: int ::
                 k < |s'.deployments| && SameEnvironment(s'.deployments[k], s.deployments[i]) ==>
                   RequestRelease(s', k, reason, chosen, now) == Err(ReleaseAlreadyPending)
    decreases |actions|
  {
    if actions != [] {
      StrandedStays(s, actions[0], i);
      StrandedForever(Step(s, actions[0]), actions[1..], i);
    }
  }

  /** Removing a publication takes its deployment off its node and out of its release, writes no release row,
      and never activates another deployment. */
  lemma WithdrawalActivatesNothing(s: State, i: nat, kind: PublicationRemovalKind, k: nat)
    requires BaseInvariant(s) && i < |s.deployments| && k < |s.deployments| && RemovePublication(s, i, kind).Ok?
    ensures var s' := RemovePublication(s, i, kind).value;
            && |s'.deployments| == |s.deployments| && s'.releases == s.releases
            && (s'.deployments[k].release.Active? ==> s.deployments[k].release.Active? && k != i)
            && (k != i ==> s'.deployments[k].release == s.deployments[k].release && s'.deployments[k].pending == s.deployments[k].pending)
            && s'.deployments[i].release == PublicationRemovalTarget(kind)
            && s'.deployments[i].serve.Retired? && s'.deployments[i].serveNode.None? && s'.deployments[i].pending.None?
  {
    var d := s.deployments[i];
    assert RowAssigned(d) && RowAssigned(s.deployments[k]);
    if !(d.release == PublicationRemovalTarget(kind) && d.serve.Retired?) {
      var changed := ChangeRelease(s, i, PublicationRemovalTarget(kind)).value;
      var removed := SetRow(changed, i, Unassigned(changed.deployments[i]).(pending := None));
      ReconcileKeepsRelease(removed, i, k);
      ReconcileKeepsRelease(removed, i, i);
      RetiredStaysRetired(removed, i);
    }
  }

  lemma RetiredStaysRetired(s: State, i: nat)
    requires i < |s.deployments| && s.deployments[i].serve.Retired? && s.deployments[i].serveNode.None?
    ensures ReconcileAround(s, i).deployments[i] == s.deployments[i]
  {
  }
}
