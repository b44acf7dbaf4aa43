/** Under constant manual review, when is a deployment published without an approved review? */
module ReviewGate {
  import opened Basics
  import opened Lifecycle
  import opened Scheduler
  import opened Delivery
  import opened ControlPlane
  import opened ReleaseInvariants

  // --- What the event log says about a deployment ---------------------------------------------

  /** The release status of deployment `i` by the log. */
  function LastStatus(history: seq<Entry>, i: nat): ReleaseStatus {
    if history == [] then Draft
    else
      var e := history[|history| - 1];
      if e.ReleaseChanged? && e.deployment == i then e.to else LastStatus(history[..|history| - 1], i)
  }

  /** A review of deployment `i` was approved after it was last a draft. */
  predicate ApprovedSinceDraft(history: seq<Entry>, i: nat) {
    history != [] &&
    match history[|history| - 1]
    case ReviewApproved(k) => k == i || ApprovedSinceDraft(history[..|history| - 1], i)
    case ReleaseChanged(k, to) => !(k == i && to.Draft?) && ApprovedSinceDraft(history[..|history| - 1], i)
  }

  /** Deployment `i` left its review without a decision after it was last a draft. */
  predicate LeftReviewUndecided(history: seq<Entry>, i: nat) {
    history != [] &&
    var before := history[..|history| - 1];
    match history[|history| - 1]
    case ReviewApproved(k) => k != i && LeftReviewUndecided(before, i)
    case ReleaseChanged(k, to) =>
      if k != i then LeftReviewUndecided(before, i)
      else !to.Draft? && ((to.Approved? && LastStatus(before, i).PendingReview?) || LeftReviewUndecided(before, i))
  }

  lemma EntryIsLocal(history: seq<Entry>, e: Entry, k: nat)
    ensures e.deployment != k ==>
              && LastStatus(history + [e], k) == LastStatus(history, k)
              && ApprovedSinceDraft(history + [e], k) == ApprovedSinceDraft(history, k)
              && LeftReviewUndecided(history + [e], k) == LeftReviewUndecided(history, k)
    ensures e.deployment == k && e.ReviewApproved? ==>
              && LastStatus(history + [e], k) == LastStatus(history, k)
              && ApprovedSinceDraft(history + [e], k) && !LeftReviewUndecided(history + [e], k)
    ensures e.deployment == k && e.ReleaseChanged? ==>
              && LastStatus(history + [e], k) == e.to
              && ApprovedSinceDraft(history + [e], k) == (!e.to.Draft? && ApprovedSinceDraft(history, k))
              && LeftReviewUndecided(history + [e], k) ==
                 (!e.to.Draft? && ((e.to.Approved? && LastStatus(history, k).PendingReview?) || LeftReviewUndecided(history, k)))
  {
    assert (history + [e])[..|history|] == history;
  }

  // --- The invariant ------------------------------------------------------------------------------

  /** The log knows the status of row `d`; only an approved or published row can have been approved or have
      left its review, and an approved row has done exactly one of the two. */
  predicate RowLogged(history: seq<Entry>, i: nat, d: Deployment) {
    && d.release == LastStatus(history, i)
    && (d.release.Draft? || d.release.PendingReview? || d.release.Rejected? ==>
          !ApprovedSinceDraft(history, i) && !LeftReviewUndecided(history, i))
    && (d.release.Approved? ==> (ApprovedSinceDraft(history, i) <==> !LeftReviewUndecided(history, i)))
    && (d.release.Active? ==> !(ApprovedSinceDraft(history, i) && LeftReviewUndecided(history, i)))
  }

  ghost predicate Logged(s: State) {
    && (forall i: nat :: i < |s.deployments| ==> RowLogged(s.history, i, s.deployments[i]))
    && (forall i: nat :: i >= |s.deployments| ==>
          LastStatus(s.history, i).Draft? && !ApprovedSinceDraft(s.history, i) && !LeftReviewUndecided(s.history, i))
  }

  /** The promise of the review: whatever is published was approved since it was last a draft. */
  ghost predicate ActiveReviewed(s: State) {
    forall i: nat :: i < |s.deployments| && s.deployments[i].release.Active? ==> ApprovedSinceDraft(s.history, i)
  }

  ghost predicate Gated(s: State) {
    Logged(s) && ActiveReviewed(s)
  }

  /** No draft waits for its release. */
  ghost predicate DraftsDoNotWait(s: State) {
    forall i: nat :: i < |s.deployments| && s.deployments[i].release.Draft? ==> s.deployments[i].pending.None?
  }

  /** No deployment newly left its review without a decision. */
  ghost predicate NoneLeft(s: State, s': State) {
    forall k: nat :: LeftReviewUndecided(s'.history, k) ==> LeftReviewUndecided(s.history, k)
  }

  /** Releases and the history are untouched, and no draft begins to wait. */
  ghost predicate Unrelated(s: State, s': State) {
    && s'.history == s.history && |s'.deployments| == |s.deployments|
    && forall i: nat :: i < |s.deployments| ==>
         && s'.deployments[i].release == s.deployments[i].release
         && (s'.deployments[i].release.Draft? && s'.deployments[i].pending.Some? ==> s.deployments[i].pending.Some?)
  }

  lemma UnrelatedKeeps(s: State, s': State)
    requires Unrelated(s, s')
    ensures Logged(s) ==> Logged(s')
    ensures ActiveReviewed(s') <==> ActiveReviewed(s)
    ensures DraftsDoNotWait(s) ==> DraftsDoNotWait(s')
    ensures NoneLeft(s, s')
  {
    if Logged(s) {
      forall i: nat | i < |s'.deployments| ensures RowLogged(s'.history, i, s'.deployments[i]) {
        assert RowLogged(s.history, i, s.deployments[i]);
      }
    }
    if ActiveReviewed(s') {
      forall i: nat | i < |s.deployments| && s.deployments[i].release.Active? ensures ApprovedSinceDraft(s.history, i) {
        assert s'.deployments[i].release.Active?;
      }
    }
  }

  lemma ReconcileIsUnrelated(s: State, i: nat)
    requires i < |s.deployments|
    ensures Unrelated(s, ReconcileAround(s, i))
  {
  }

  lemma RowThenReconcile(s: State, i: nat, d': Deployment)
    requires Gated(s) && i < |s.deployments| && d'.release == s.deployments[i].release
    ensures var s' := ReconcileAround(SetRow(s, i, d'), i);
            && Gated(s') && NoneLeft(s, s')
            && (DraftsDoNotWait(s) && (d'.release.Draft? ==> d'.pending.None?) ==> DraftsDoNotWait(s'))
  {
    var updated := SetRow(s, i, d');
    RowGated(s, i, d');
    ReconcileIsUnrelated(updated, i);
    UnrelatedKeeps(updated, ReconcileAround(updated, i));
  }

  lemma RowGated(s: State, i: nat, d': Deployment)
    requires Gated(s) && i < |s.deployments| && d'.release == s.deployments[i].release
    ensures Gated(SetRow(s, i, d'))
    ensures DraftsDoNotWait(s) && (d'.release.Draft? ==> d'.pending.None?) ==> DraftsDoNotWait(SetRow(s, i, d'))
  {
    forall k: nat | k < |s.deployments| ensures RowLogged(s.history, k, SetRow(s, i, d').deployments[k]) {
      assert RowLogged(s.history, k, s.deployments[k]);
    }
  }

  // --- Changes of the release status ----------------------------------------------------------------

  lemma ChangeDecides(s: State, i: nat, to: ReleaseStatus, s': State)
    requires Gated(s) && i < |s.deployments| && ChangeRelease(s, i, to) == Ok(s')
    ensures Logged(s')
    ensures ActiveReviewed(s') <==> (to.Active? ==> ApprovedSinceDraft(s.history, i))
    ensures forall k: nat :: LeftReviewUndecided(s'.history, k) && !LeftReviewUndecided(s.history, k) <==>
              k == i && to.Approved? && s.deployments[i].release.PendingReview?
    ensures !to.Draft? && DraftsDoNotWait(s) ==> DraftsDoNotWait(s')
    ensures forall k: nat :: k != i ==> ApprovedSinceDraft(s'.history, k) == ApprovedSinceDraft(s.history, k)
  {
    forall k: nat
      ensures LeftReviewUndecided(s'.history, k) && !LeftReviewUndecided(s.history, k) <==>
                k == i && to.Approved? && s.deployments[i].release.PendingReview?
      ensures k != i ==> ApprovedSinceDraft(s'.history, k) == ApprovedSinceDraft(s.history, k)
      ensures k < |s.deployments| ==> RowLogged(s'.history, k, s'.deployments[k])
      ensures k >= |s.deployments| ==>
                LastStatus(s'.history, k).Draft? && !ApprovedSinceDraft(s'.history, k) && !LeftReviewUndecided(s'.history, k)
      ensures k == i ==> ApprovedSinceDraft(s'.history, k) == (!to.Draft? && ApprovedSinceDraft(s.history, k))
    {
      EntryIsLocal(s.history, ReleaseChanged(i, to), k);
      assert RowLogged(s.history, i, s.deployments[i]);
      if k < |s.deployments| { assert RowLogged(s.history, k, s.deployments[k]); }
    }
    if ActiveReviewed(s') && to.Active? { assert s'.deployments[i].release.Active?; }
  }

  /** An activation keeps the promise if and only if its deployment was reviewed: the one it demotes was. */
  lemma ActivateDecides(s: State, i: nat, reason: ReleaseReason, s': State)
    requires Gated(s) && i < |s.deployments| && Activate(s, i, reason) == Ok(s')
    ensures Logged(s') && NoneLeft(s, s') && |s'.deployments| == |s.deployments|
    ensures ActiveReviewed(s') <==> ApprovedSinceDraft(s.history, i)
    ensures DraftsDoNotWait(s) ==> DraftsDoNotWait(s')
    ensures s'.deployments[i] == s.deployments[i].(release := Active)
  {
    var previous := FindActive(s.deployments, |s.deployments|, i);
    var demoted := if previous.Some? then ChangeRelease(s, previous.value, Approved).value else s;
    if previous.Some? { ChangeDecides(s, previous.value, Approved, demoted); }
    var activated := ChangeRelease(demoted, i, Active).value;
    ChangeDecides(demoted, i, Active, activated);
    UnrelatedKeeps(activated, s');
    UnrelatedKeeps(s', activated);
  }

  /** A release request publishes its deployment at once: it is served and no release of its environment waits. */
  predicate ReleasesNow(s: State, i: nat)
    requires i < |s.deployments|
  {
    !PendingElsewhere(s.deployments, i) && s.deployments[i].serveNode.Some? && s.deployments[i].serve.ServeReady?
  }

  lemma RequestReleaseDecides(s: State, i: nat, reason: ReleaseReason, chosen: Option<Placement>, now: int, s': State)
    requires Gated(s) && i < |s.deployments| && RequestRelease(s, i, reason, chosen, now) == Ok(s')
    ensures Logged(s') && NoneLeft(s, s')
    ensures ActiveReviewed(s') <==> (ReleasesNow(s, i) ==> ApprovedSinceDraft(s.history, i))
    ensures DraftsDoNotWait(s) && !s.deployments[i].release.Draft? ==> DraftsDoNotWait(s')
  {
    var d := s.deployments[i];
    if d.serveNode.Some? && d.serve.ServeReady? {
      var activated := Activate(s, i, reason).value;
      ActivateDecides(s, i, reason, activated);
      ReconcileIsUnrelated(activated, i);
      UnrelatedKeeps(activated, s');
    } else if d.serveNode.None? || d.serve.Retired? {
      RowThenReconcile(s, i, Placed(d, chosen.value).(pending := Some(reason)));
    } else {
      RowThenReconcile(s, i, d.(pending := Some(reason)));
    }
  }

  lemma CompletePendingDecides(s: State, i: nat, s': State)
    requires Gated(s) && i < |s.deployments| && CompletePendingRelease(s, i) == Ok(s')
    ensures Logged(s') && NoneLeft(s, s') && |s'.deployments| == |s.deployments|
    ensures ActiveReviewed(s') <==>
              (s.deployments[i].pending.Some? && s.deployments[i].serve.ServeReady? ==> ApprovedSinceDraft(s.history, i))
    ensures DraftsDoNotWait(s) ==> DraftsDoNotWait(s')
  {
    var d := s.deployments[i];
    if d.pending.Some? && d.serve.ServeReady? {
      var activated := Activate(s, i, d.pending.value).value;
      ActivateDecides(s, i, d.pending.value, activated);
      var cleared := SetRow(activated, i, activated.deployments[i].(pending := None));
      UnrelatedKeeps(activated, cleared);
      ReconcileIsUnrelated(cleared, i);
      UnrelatedKeeps(cleared, s');
    }
  }

  // --- The transactions ---------------------------------------------------------------------------------

  predicate UnderManualReview(a: Action) {
    a.AFinalizeReady? || a.AServeReport? || a.AActivate? || a.ARepublish? ==> a.mode.ManualReview?
  }

  /** The report that its node serves deployment `i` completes a release that may be completed. */
  predicate CompletesRelease(s: State, a: Action) {
    && a.AServeReport? && a.deployment < |s.deployments| && a.node < |s.nodes| && a.capable && a.serve.ServeReady?
    && var d := s.deployments[a.deployment];
    d.serveNode == Some(a.node) && d.build.BuildReady? && d.serve.Syncing? && d.pending.Some? && (d.release.Draft? || d.release.Approved?)
  }

  /** A promotion or rollback that its handler let through publishes the deployment as it is by then. */
  predicate ActivatesNow(s: State, a: Action) {
    && a.AActivate? && a.deployment < |s.deployments| && a.seenReady && a.seenRelease.Approved? && ReleasesNow(s, a.deployment)
    && var d := s.deployments[a.deployment]; d.build.BuildReady? && (d.release.Draft? || d.release.Approved?)
  }

  predicate RepublishesNow(s: State, a: Action) {
    && a.ARepublish? && a.deployment < |s.deployments| && ReleasesNow(s, a.deployment)
    && s.deployments[a.deployment].build.BuildReady? && s.deployments[a.deployment].release.Approved?
  }

  /** A promotion, rollback, republication or completed release publishes a draft, or a deployment that left its
      review without a decision. */
  predicate PublishesUnreviewed(s: State, a: Action) {
    && (CompletesRelease(s, a) || ActivatesNow(s, a) || RepublishesNow(s, a))
    && (s.deployments[a.deployment].release.Draft? || LeftReviewUndecided(s.history, a.deployment))
  }

  /** A team member withdraws a deployment whose review is still open. */
  predicate WithdrawsOpenReview(s: State, a: Action) {
    a.ARemovePublication? && a.kind.TeamUser? && a.deployment < |s.deployments|
    && var d := s.deployments[a.deployment]; d.release.PendingReview? && ReviewableArtifact(d)
  }

  /** A promotion or rollback whose handler saw an approved deployment that is a draft by then. */
  predicate ReleasesDraft(s: State, a: Action) {
    a.AActivate? && a.seenRelease.Approved? && a.deployment < |s.deployments| && s.deployments[a.deployment].release.Draft?
  }

  /** What one transaction under manual review does: the log stays right, the promise is kept exactly when
      nothing unreviewed is published, exactly a withdrawn open review is left undecided, and drafts begin to
      wait only when a late handler releases one. */
  ghost predicate Decided(s: State, a: Action, s': State) {
    && Logged(s')
    && (ActiveReviewed(s') <==> !PublishesUnreviewed(s, a))
    && (forall k: nat :: LeftReviewUndecided(s'.history, k) && !LeftReviewUndecided(s.history, k) <==>
          WithdrawsOpenReview(s, a) && k == a.deployment && !LeftReviewUndecided(s.history, k))
    && (DraftsDoNotWait(s) && !ReleasesDraft(s, a) ==> DraftsDoNotWait(s'))
  }

  lemma UnrelatedDecided(s: State, a: Action, s': State)
    requires Gated(s) && Unrelated(s, s') && !PublishesUnreviewed(s, a) && !WithdrawsOpenReview(s, a)
    ensures Decided(s, a, s')
  {
    UnrelatedKeeps(s, s');
  }

  lemma ServeReadyDecides(s: State, a: Action, s': State)
    requires Gated(s) && UnderManualReview(a) && a.AServeReport? && a.deployment < |s.deployments| && a.serve.ServeReady?
    requires s.deployments[a.deployment].serveNode == Some(a.node) && s.deployments[a.deployment].serve.Syncing?
    requires CompleteServeReady(SetRow(s, a.deployment, s.deployments[a.deployment].(serve := ServeReady)), a.deployment, ManualReview) == Ok(s')
    ensures Logged(s') && NoneLeft(s, s') && (DraftsDoNotWait(s) ==> DraftsDoNotWait(s'))
    ensures ActiveReviewed(s') <==> (s.deployments[a.deployment].pending.Some? ==> ApprovedSinceDraft(s.history, a.deployment))
  {
    var i := a.deployment;
    var d := s.deployments[i];
    var served := SetRow(s, i, d.(serve := ServeReady));
    RowGated(s, i, d.(serve := ServeReady));
    var completed := if d.pending.Some? then CompletePendingRelease(served, i).value else served;
    if d.pending.Some? { CompletePendingDecides(served, i, completed); }
    ReconcileIsUnrelated(completed, i);
    UnrelatedKeeps(completed, s');
  }

  lemma ServeReportDecides(s: State, a: Action, s': State)
    requires Gated(s) && UnderManualReview(a) && a.AServeReport? && a.deployment < |s.deployments|
    requires DeploymentStep(s, a) == Ok(s')
    ensures Decided(s, a, s')
  {
    var d := s.deployments[a.deployment];
    if d.serveNode == Some(a.node) && a.serve.ServeReady? {
      assert RowLogged(s.history, a.deployment, d);
      assert TransitionServe(d, ServeReady) == Ok(d.(serve := ServeReady));
      ServeReadyDecides(s, a, s');
      ReadyReportCompletes(s, a);
    } else {
      ReportIsUnrelated(s, a, s');
      UnrelatedDecided(s, a, s');
    }
  }

  lemma ReportIsUnrelated(s: State, a: Action, s': State)
    requires a.AServeReport? && a.deployment < |s.deployments| && DeploymentStep(s, a) == Ok(s')
    requires !(s.deployments[a.deployment].serveNode == Some(a.node) && a.serve.ServeReady?)
    ensures Unrelated(s, s')
  {
  }

  /** A committed report that a waiting deployment is served completes its release. */
  lemma ReadyReportCompletes(s: State, a: Action)
    requires a.AServeReport? && a.deployment < |s.deployments| && a.serve.ServeReady? && DeploymentStep(s, a).Ok?
    requires s.deployments[a.deployment].serveNode == Some(a.node)
    ensures CompletesRelease(s, a) <==> s.deployments[a.deployment].pending.Some?
  {
    var i, d := a.deployment, s.deployments[a.deployment];
    var served := SetRow(s, i, d.(serve := ServeReady));
    assert TransitionServe(d, ServeReady) == Ok(d.(serve := ServeReady));
    if d.pending.Some? {
      assert CompletePendingRelease(served, i).Ok?;
      assert Activate(served, i, d.pending.value).Ok?;
      ActivationNeeds(served, i, d.pending.value);
    }
  }

  lemma ActivationNeeds(s: State, i: nat, reason: ReleaseReason)
    requires i < |s.deployments| && Activate(s, i, reason).Ok?
    ensures s.deployments[i].release.Draft? || s.deployments[i].release.Approved?
  {
  }

  /** An approved review counts from the moment it is written. */
  lemma ApprovalIsLogged(s: State, i: nat, s': State)
    requires Gated(s) && i < |s.deployments| && s.deployments[i].release.Approved?
    requires s' == s.(history := s.history + [ReviewApproved(i)])
    ensures Gated(s') && ApprovedSinceDraft(s'.history, i)
    ensures forall k: nat :: LeftReviewUndecided(s'.history, k) <==> k != i && LeftReviewUndecided(s.history, k)
    ensures DraftsDoNotWait(s) ==> DraftsDoNotWait(s')
  {
    forall k: nat
      ensures LeftReviewUndecided(s'.history, k) <==> k != i && LeftReviewUndecided(s.history, k)
      ensures ApprovedSinceDraft(s.history, k) ==> ApprovedSinceDraft(s'.history, k)
      ensures k < |s.deployments| ==> RowLogged(s'.history, k, s'.deployments[k])
      ensures k >= |s.deployments| ==>
                LastStatus(s'.history, k).Draft? && !ApprovedSinceDraft(s'.history, k) && !LeftReviewUndecided(s'.history, k)
    {
      EntryIsLocal(s.history, ReviewApproved(i), k);
      if k < |s.deployments| { assert RowLogged(s.history, k, s.deployments[k]); }
    }
    EntryIsLocal(s.history, ReviewApproved(i), i);
  }

  lemma ReviewDecides(s: State, a: Action, s': State)
    requires Gated(s) && a.AReview? && a.deployment < |s.deployments| && DeploymentStep(s, a) == Ok(s')
    ensures Decided(s, a, s')
  {
    var i := a.deployment;
    if a.approved {
      var changed := ChangeRelease(s, i, Approved).value;
      ChangeDecides(s, i, Approved, changed);
      var reviewed := changed.(history := changed.history + [ReviewApproved(i)]);
      ApprovalIsLogged(changed, i, reviewed);
      RequestReleaseDecides(reviewed, i, Promote, a.chosen, a.now, s');
    } else {
      ChangeDecides(s, i, Rejected, s');
    }
  }

  /** The release status changes first, with the waiting release cleared beside it. */
  lemma RemovalChanges(s: State, i: nat, target: ReleaseStatus, changed: State)
    requires Gated(s) && i < |s.deployments| && !target.Active?
    requires ChangeRelease(SetRow(s, i, s.deployments[i].(pending := None)), i, target) == Ok(changed)
    ensures Gated(changed) && changed.history == s.history + [ReleaseChanged(i, target)]
    ensures forall k: nat :: LeftReviewUndecided(changed.history, k) && !LeftReviewUndecided(s.history, k) <==>
              k == i && target.Approved? && s.deployments[i].release.PendingReview?
    ensures DraftsDoNotWait(s) ==> DraftsDoNotWait(changed)
    ensures forall k: nat :: k < |s.deployments| && k != i ==> changed.deployments[k] == s.deployments[k]
  {
    var d := s.deployments[i].(pending := None);
    RowGated(s, i, d);
    ChangeDecides(SetRow(s, i, d), i, target, changed);
  }

  lemma RemovalDecides(s: State, a: Action, s': State)
    requires Gated(s) && a.ARemovePublication? && a.deployment < |s.deployments| && DeploymentStep(s, a) == Ok(s')
    ensures Decided(s, a, s')
  {
    var i := a.deployment;
    var d := s.deployments[i];
    var target := PublicationRemovalTarget(a.kind);
    assert RowLogged(s.history, i, d);
    if d.release == target && d.serve.Retired? {
      UnrelatedDecided(s, a, s');
    } else {
      var changed := ChangeRelease(SetRow(s, i, d.(pending := None)), i, target).value;
      RemovalChanges(s, i, target, changed);
      RemovalShape(s, i, a.kind, changed, s');
      UnrelatedKeeps(changed, s');
      OpenReviewIsReviewable(s, a);
    }
  }

  lemma RemovalShape(s: State, i: nat, kind: PublicationRemovalKind, changed: State, s': State)
    requires i < |s.deployments| && RemovePublication(s, i, kind) == Ok(s')
    requires !(s.deployments[i].release == PublicationRemovalTarget(kind) && s.deployments[i].serve.Retired?)
    requires ChangeRelease(SetRow(s, i, s.deployments[i].(pending := None)), i, PublicationRemovalTarget(kind)) == Ok(changed)
    ensures Unrelated(changed, s')
  {
    var first := ChangeRelease(s, i, PublicationRemovalTarget(kind)).value;
    var withdrawn := SetRow(first, i, Unassigned(first.deployments[i]).(pending := None));
    RemovalIsWithdrawal(s, i, kind, withdrawn, s');
    assert Unrelated(changed, withdrawn);
    ReconcileIsUnrelated(withdrawn, i);
  }

  lemma RemovalIsWithdrawal(s: State, i: nat, kind: PublicationRemovalKind, withdrawn: State, s': State)
    requires i < |s.deployments| && RemovePublication(s, i, kind) == Ok(s')
    requires !(s.deployments[i].release == PublicationRemovalTarget(kind) && s.deployments[i].serve.Retired?)
    requires ChangeRelease(s, i, PublicationRemovalTarget(kind)).Ok?
    requires var first := ChangeRelease(s, i, PublicationRemovalTarget(kind)).value;
             withdrawn == SetRow(first, i, Unassigned(first.deployments[i]).(pending := None))
    ensures s' == ReconcileAround(withdrawn, i)
  {
  }

  /** The withdrawal of an open review goes through only for an artifact that a reviewer could look at. */
  lemma OpenReviewIsReviewable(s: State, a: Action)
    requires a.ARemovePublication? && a.deployment < |s.deployments| && DeploymentStep(s, a).Ok?
    ensures WithdrawsOpenReview(s, a) <==> a.kind.TeamUser? && s.deployments[a.deployment].release.PendingReview?
  {
  }

  lemma FinalizeDecides(s: State, a: Action, s': State)
    requires Gated(s) && UnderManualReview(a) && a.AFinalizeReady? && a.deployment < |s.deployments|
    requires DeploymentStep(s, a) == Ok(s')
    ensures Decided(s, a, s')
  {
    var i := a.deployment;
    var d := s.deployments[i].(build := BuildReady);
    var ready := SetRow(s, i, d);
    var settled := FinalizeShape(s, i, ManualReview, s');
    RowGated(s, i, d);
    if d.release.Draft? { ChangeDecides(ready, i, PendingReview, settled); }
    ReconcileIsUnrelated(settled, i);
    UnrelatedKeeps(settled, s');
  }

  lemma PublishDecides(s: State, a: Action, s': State)
    requires Gated(s) && UnderManualReview(a) && (a.AActivate? || a.ARepublish?) && a.deployment < |s.deployments|
    requires DeploymentStep(s, a) == Ok(s')
    ensures Decided(s, a, s')
  {
    var i := a.deployment;
    assert RowLogged(s.history, i, s.deployments[i]);
    if a.AActivate? && a.seenRelease.Approved? {
      RequestReleaseDecides(s, i, a.reason, a.chosen, a.now, s');
    } else if a.ARepublish? && s.deployments[i].release.Approved? {
      RequestReleaseDecides(s, i, Promote, a.chosen, a.now, s');
    } else {
      ChangeDecides(s, i, PendingReview, s');
    }
  }

  lemma DeploymentStepDecides(s: State, a: Action, s': State)
    requires Gated(s) && UnderManualReview(a)
    requires OnDeployment(a) && a.deployment < |s.deployments| && DeploymentStep(s, a) == Ok(s')
    ensures Decided(s, a, s')
  {
    if a.ARemovePublication? { RemovalDecides(s, a, s'); }
    else if a.AServeReport? { ServeReportDecides(s, a, s'); }
    else if a.AReview? { ReviewDecides(s, a, s'); }
    else if a.AActivate? || a.ARepublish? { PublishDecides(s, a, s'); }
    else if a.AFinalizeReady? { FinalizeDecides(s, a, s'); }
    else { UnrelatedDecided(s, a, s'); }
  }

  /** Publishing and withdrawing, as described, always commit. */
  lemma PublishingCommits(s: State, a: Action)
    requires OnDeployment(a) && a.deployment < |s.deployments| && UnderManualReview(a)
    requires PublishesUnreviewed(s, a) || WithdrawsOpenReview(s, a)
    ensures DeploymentStep(s, a).Ok?
  {
    if a.AServeReport? {
      var i, d := a.deployment, s.deployments[a.deployment];
      var served := SetRow(s, i, d.(serve := ServeReady));
      assert TransitionServe(d, ServeReady) == Ok(d.(serve := ServeReady));
      ActivationSucceeds(served, i, d.pending.value);
      assert CompletePendingRelease(served, i).Ok?;
    } else if a.AActivate? {
      ActivationSucceeds(s, a.deployment, a.reason);
    } else if a.ARepublish? {
      ActivationSucceeds(s, a.deployment, Promote);
    }
  }

  lemma RolledBack(s: State, a: Action)
    requires OnDeployment(a) && UnderManualReview(a) && (a.deployment < |s.deployments| ==> DeploymentStep(s, a).Err?)
    ensures !PublishesUnreviewed(s, a) && !WithdrawsOpenReview(s, a)
  {
    if a.deployment < |s.deployments| && (PublishesUnreviewed(s, a) || WithdrawsOpenReview(s, a)) { PublishingCommits(s, a); }
  }

  lemma ActivationSucceeds(s: State, i: nat, reason: ReleaseReason)
    requires i < |s.deployments| && s.deployments[i].build.BuildReady? && s.deployments[i].serve.ServeReady?
    requires s.deployments[i].release.Draft? || s.deployments[i].release.Approved?
    ensures Activate(s, i, reason).Ok?
  {
  }

  /** One transaction under manual review keeps every published deployment reviewed if and only if it does not
      publish a draft or a deployment that left its review without a decision; and a deployment leaves its
      review without a decision exactly when its team withdraws it there. */
  lemma StepDecidesGate(s: State, a: Action)
    requires Gated(s) && UnderManualReview(a)
    ensures Decided(s, a, Step(s, a))
  {
    if OnDeployment(a) {
      StepOnDeployment(s, a);
      if a.deployment < |s.deployments| && DeploymentStep(s, a).Ok? {
        DeploymentStepDecides(s, a, DeploymentStep(s, a).value);
      } else {
        RolledBack(s, a);
        UnrelatedDecided(s, a, s);
      }
    } else if a.ACreate? {
      CreateDecides(s, a);
    } else {
      SystemStepIsUnrelated(s, a);
      UnrelatedDecided(s, a, Step(s, a));
    }
  }

  lemma SystemStepIsUnrelated(s: State, a: Action)
    requires !OnDeployment(a) && !a.ACreate?
    ensures Unrelated(s, Step(s, a))
  {
    if a.AProcessJob? && a.job < |s.jobs| { ProcessJobRows(s, a.job, a.now, a.invalidArtifacts); }
  }

  lemma CreateDecides(s: State, a: Action)
    requires Gated(s) && a.ACreate?
    ensures Decided(s, a, Step(s, a))
  {
    var d := CreateShape(s, a);
    if d.Some? { CreatedIsDraft(s, d.value); }
    CreatingPublishesNothing(s, a);
  }

  lemma CreatingPublishesNothing(s: State, a: Action)
    requires a.ACreate?
    ensures !PublishesUnreviewed(s, a) && !WithdrawsOpenReview(s, a)
  {
  }

  lemma CreatedIsDraft(s: State, d: Deployment)
    requires Gated(s) && d.release.Draft? && d.pending.None?
    ensures var s' := s.(deployments := s.deployments + [d]);
            Gated(s') && (DraftsDoNotWait(s) ==> DraftsDoNotWait(s'))
  {
    var s' := s.(deployments := s.deployments + [d]);
    forall i: nat | i < |s'.deployments| ensures RowLogged(s'.history, i, s'.deployments[i]) {
      if i < |s.deployments| { assert RowLogged(s.history, i, s.deployments[i]); }
    }
  }

  // --- Every run ------------------------------------------------------------------------------------------

  ghost predicate NeverPublishesUnreviewed(actions: seq<Action>) {
    forall k: nat :: k < |actions| ==> !PublishesUnreviewed(Run(actions[..k]), actions[k])
  }

  /** Over whole runs under manual review: in every state each published deployment was approved since it was
      last a draft, if and only if no transaction of the run published a draft or a deployment that had left its
      review without a decision. */
  lemma ManualReviewGate(actions: seq<Action>)
    requires forall a :: a in actions ==> UnderManualReview(a)
    ensures (forall k: nat :: k <= |actions| ==> ActiveReviewed(Run(actions[..k]))) <==> NeverPublishesUnreviewed(actions)
  {
    if forall k: nat :: k <= |actions| ==> ActiveReviewed(Run(actions[..k])) {
      forall k: nat | k < |actions| ensures !PublishesUnreviewed(Run(actions[..k]), actions[k]) {
        RunPrefix(actions, k);
        LoggedAfter(actions, k);
        assert ActiveReviewed(Run(actions[..k])) && ActiveReviewed(Run(actions[..k + 1]));
        StepDecidesGate(Run(actions[..k]), actions[k]);
      }
    }
    if NeverPublishesUnreviewed(actions) {
      forall k: nat | k <= |actions| ensures ActiveReviewed(Run(actions[..k])) { GatedAfter(actions, k); }
    }
  }

  lemma {:induction false} LoggedAfter(actions: seq<Action>, k: nat)
    requires forall a :: a in actions ==> UnderManualReview(a)
    requires k <= |actions| && forall j: nat :: j <= |actions| ==> ActiveReviewed(Run(actions[..j]))
    ensures Logged(Run(actions[..k]))
  {
    if k > 0 {
      LoggedAfter(actions, k - 1);
      RunPrefix(actions, k - 1);
      assert ActiveReviewed(Run(actions[..k - 1]));
      StepStaysLogged(Run(actions[..k - 1]), actions[k - 1], Run(actions[..k]));
    }
  }

  lemma StepStaysLogged(s: State, a: Action, s': State)
    requires Gated(s) && UnderManualReview(a) && s' == Step(s, a)
    ensures Logged(s')
  {
    StepDecidesGate(s, a);
  }

  lemma {:induction false} GatedAfter(actions: seq<Action>, k: nat)
    requires forall a :: a in actions ==> UnderManualReview(a)
    requires NeverPublishesUnreviewed(actions) && k <= |actions|
    ensures Gated(Run(actions[..k]))
  {
    if k > 0 {
      GatedAfter(actions, k - 1);
      RunPrefix(actions, k - 1);
      assert !PublishesUnreviewed(Run(actions[..k - 1]), actions[k - 1]);
      ReviewedStepIsGated(Run(actions[..k - 1]), actions[k - 1], Run(actions[..k]));
    }
  }

  lemma ReviewedStepIsGated(s: State, a: Action, s': State)
    requires Gated(s) && UnderManualReview(a) && !PublishesUnreviewed(s, a) && s' == Step(s, a)
    ensures Gated(s')
  {
    StepDecidesGate(s, a);
  }

  ghost predicate NeverBypasses(actions: seq<Action>) {
    forall k: nat :: k < |actions| ==>
      !WithdrawsOpenReview(Run(actions[..k]), actions[k]) && !ReleasesDraft(Run(actions[..k]), actions[k])
  }

  lemma {:induction false} NothingBypassed(actions: seq<Action>, k: nat)
    requires forall a :: a in actions ==> UnderManualReview(a)
    requires NeverBypasses(actions) && k <= |actions|
    ensures var s := Run(actions[..k]);
            Gated(s) && DraftsDoNotWait(s) && forall i: nat :: !LeftReviewUndecided(s.history, i)
  {
    if k > 0 {
      NothingBypassed(actions, k - 1);
      RunPrefix(actions, k - 1);
      StepBypassesNothing(Run(actions[..k - 1]), actions[k - 1], Run(actions[..k]));
    }
  }

  lemma StepBypassesNothing(s: State, a: Action, s': State)
    requires Gated(s) && DraftsDoNotWait(s) && (forall i: nat :: !LeftReviewUndecided(s.history, i)) && s' == Step(s, a)
    requires UnderManualReview(a) && !WithdrawsOpenReview(s, a) && !ReleasesDraft(s, a)
    ensures Gated(s') && DraftsDoNotWait(s') && forall i: nat :: !LeftReviewUndecided(s'.history, i)
  {
    StepDecidesGate(s, a);
  }

  /** Only these two steps lead there: when no team withdraws an open review and no handler releases a draft that
      it saw approved, every published deployment was approved since it was last a draft. */
  lemma ActiveMeansReviewed(actions: seq<Action>, i: nat)
    requires forall a :: a in actions ==> UnderManualReview(a)
    requires NeverBypasses(actions)
    requires i < |Run(actions).deployments| && Run(actions).deployments[i].release.Active?
    ensures ApprovedSinceDraft(Run(actions).history, i)
  {
    NothingBypassed(actions, |actions|);
    assert actions[..|actions|] == actions;
  }
}
