/** Runs that publish a deployment no review approved, strand a release, or restart a canceled build. */
module ReviewRuns {
  import opened Basics
  import opened Lifecycle
  import opened Scheduler
  import opened Delivery
  import opened ControlPlane
  import opened ReleaseInvariants
  import opened ReleaseFlow
  import opened ReviewGate
  import opened ExampleRuns

  const AUTOMATIC0 := Placement(0, "eu", false, Automatic)

  /** The built site, served by its node in this status. */
  function Built(serve: ServeStatus, release: ReleaseStatus): Deployment {
    Site(0, BuildReady, serve, release, Some(0), Some(0), 256)
  }

  function Withdrawn(release: ReleaseStatus): Deployment {
    Site(0, BuildReady, Retired, release, Some(0), None, 256)
  }

  const PUBLISHED := Release(0, Production, 0, Promote, None)

  // --- Steps of one site -------------------------------------------------------------------------

  lemma FinalizedInReview()
    ensures Step(OneSite(Site(0, Building, ServePending, Draft, Some(0), Some(0), 256), [], []), AFinalizeReady(0, ManualReview))
            == OneSite(Built(ServePending, PendingReview), [], SUBMITTED)
  {
    OnlyCandidate(Built(ServePending, PendingReview));
    var d := Site(0, Building, ServePending, Draft, Some(0), Some(0), 256);
    assert [d][0 := Built(ServePending, Draft)] == [Built(ServePending, Draft)];
    assert [Built(ServePending, Draft)][0 := Built(ServePending, PendingReview)] == [Built(ServePending, PendingReview)];
  }

  lemma FinalizedAsDraft()
    ensures Step(OneSite(Site(0, Building, ServePending, Draft, Some(0), Some(0), 256), [], []), AFinalizeReady(0, AutoReview))
            == OneSite(Built(ServePending, Draft), [], [])
  {
    OnlyCandidate(Built(ServePending, Draft));
    var d := Site(0, Building, ServePending, Draft, Some(0), Some(0), 256);
    assert [d][0 := Built(ServePending, Draft)] == [Built(ServePending, Draft)];
  }

  lemma Reported(d: Deployment, releases: seq<Release>, history: seq<Entry>, mode: ReviewMode)
    requires d.serveNode == Some(0) && d.build.BuildReady? && d.serve.ServePending?
    ensures Step(OneSite(d, releases, history), AServeReport(0, 0, true, Syncing, None, mode))
            == OneSite(d.(serve := Syncing), releases, history)
  {
  }

  lemma ReadyReport(s: State, i: nat, n: nat, mode: ReviewMode)
    requires i < |s.deployments| && n < |s.nodes|
    requires s.deployments[i].serveNode == Some(n) && s.deployments[i].build.BuildReady? && s.deployments[i].serve.Syncing?
    ensures Step(s, AServeReport(i, n, true, ServeReady, None, mode)) ==
            Commit(s, CompleteServeReady(SetRow(s, i, s.deployments[i].(serve := ServeReady)), i, mode))
  {
    var a, d := AServeReport(i, n, true, ServeReady, None, mode), s.deployments[i];
    assert TransitionServe(d, ServeReady) == Ok(d.(serve := ServeReady));
    assert DeploymentStep(s, a) == CompleteServeReady(SetRow(s, i, d.(serve := ServeReady)), i, mode);
  }

  lemma ServedInReview(history: seq<Entry>)
    ensures Step(OneSite(Built(Syncing, PendingReview), [], history), AServeReport(0, 0, true, ServeReady, None, ManualReview))
            == OneSite(Built(ServeReady, PendingReview), [], history)
  {
    OnlyCandidate(Built(ServeReady, PendingReview));
  }

  lemma Removed(kind: PublicationRemovalKind, from: ReleaseStatus, releases: seq<Release>, history: seq<Entry>)
    requires CanTransitionRelease(from, PublicationRemovalTarget(kind))
    ensures Step(OneSite(Built(ServeReady, from), releases, history), ARemovePublication(0, kind))
            == OneSite(Withdrawn(PublicationRemovalTarget(kind)), releases, history + [ReleaseChanged(0, PublicationRemovalTarget(kind))])
  {
    var d := Withdrawn(PublicationRemovalTarget(kind));
    assert Reconciled([d], 0, Production) == [d];
  }

  // --- A promotion that has to wait for its node ---------------------------------------------------

  /** The only node, which is idle, is the scheduler's only choice. */
  lemma CanPlaceAnywhere(s: State)
    requires s.nodes == [NodeUp(SMALL)] && forall m: Measure :: ScheduledUsage(s, 0, m) == 0
    ensures PlacementIsPossible(s, 0, ServeResourcesFor(false), Some("eu"), None, AUTOMATIC0)
  {
    var c, requested := CandidateFor(s, 0), ServeResourcesFor(false);
    var cs := EligibleCandidates(s, 0);
    assert c in cs && forall x :: x in cs ==> x == c;
    FitsMeans(c, requested);
    var local := InRegion(cs, Some("eu"));
    assert c in local;
    var fitting := Filter(Eligible(local), x => Fits(x, requested));
    assert c in fitting && forall x :: x in fitting ==> x == c;
    assert Lowest(c, fitting, requested);
  }

  function Queued(release: ReleaseStatus, serve: ServeStatus): Deployment {
    Built(serve, release).(pending := Some(Promote))
  }

  lemma WithdrawnCanBePlaced(release: ReleaseStatus, releases: seq<Release>, history: seq<Entry>)
    ensures PlacementIsPossible(OneSite(Withdrawn(release), releases, history), 0, ServeResourcesFor(false), Some("eu"), None, AUTOMATIC0)
  {
    var s := OneSite(Withdrawn(release), releases, history);
    forall m: Measure ensures ScheduledUsage(s, 0, m) == 0 {
      assert UsageShare(s, 0, m, 0) == 0;
      SumZero(1, UsageTerm(s, 0, m));
    }
    CanPlaceAnywhere(s);
  }

  /** Writing the only row and reconciling around it leaves the row as it was written, when it is desired. */
  lemma RowIsKept(d: Deployment, d': Deployment, releases: seq<Release>, history: seq<Entry>)
    requires Reconciled([d'], d'.project, d'.environment) == [d']
    ensures ReconcileAround(SetRow(OneSite(d, releases, history), 0, d'), 0) == OneSite(d', releases, history)
  {
    assert [d][0 := d'] == [d'];
  }

  lemma UnservedRequest(s: State, i: nat, chosen: Option<Placement>, now: int)
    requires i < |s.deployments| && !s.deployments[i].serve.ServeReady?
    requires forall k: nat :: k < |s.deployments| ==> s.deployments[k].pending.None?
    ensures RequestRelease(s, i, Promote, chosen, now) == QueueRelease(s, i, Promote, chosen, now)
  {
    assert !PendingElsewhere(s.deployments, i);
  }

  lemma UnservedIsQueued(s: State, i: nat, seen: ReleaseStatus, mode: ReviewMode, chosen: Option<Placement>, now: int)
    requires i < |s.deployments| && !s.deployments[i].serve.ServeReady?
    requires seen.Approved? || (seen.Draft? && mode.AutoReview?)
    requires forall k: nat :: k < |s.deployments| ==> s.deployments[k].pending.None?
    ensures Step(s, AActivate(i, true, seen, Promote, mode, chosen, now)) == Commit(s, QueueRelease(s, i, Promote, chosen, now))
  {
    UnservedRequest(s, i, chosen, now);
    var a := AActivate(i, true, seen, Promote, mode, chosen, now);
    assert DeploymentStep(s, a) == RequestRelease(s, i, Promote, chosen, now);
  }

  lemma WithdrawnIsQueued(release: ReleaseStatus, releases: seq<Release>, history: seq<Entry>)
    ensures Step(OneSite(Withdrawn(release), releases, history), AActivate(0, true, Approved, Promote, ManualReview, Some(AUTOMATIC0), 0))
            == OneSite(Queued(release, ServePending), releases, history)
  {
    var s, d, queued := OneSite(Withdrawn(release), releases, history), Withdrawn(release), Queued(release, ServePending);
    UnservedIsQueued(s, 0, Approved, ManualReview, Some(AUTOMATIC0), 0);
    WithdrawnCanBePlaced(release, releases, history);
    WaitingIsDesired(queued);
    RowIsKept(d, queued, releases, history);
    assert Placed(d, AUTOMATIC0).(pending := Some(Promote)) == queued;
  }

  lemma WaitingIsDesired(d: Deployment)
    requires d.pending.Some?
    ensures Reconciled([d], d.project, d.environment) == [d]
  {
    ReconcileKeepsRelease(OneSite(d, [], []), 0, 0);
  }

  lemma ActiveIsDesired(d: Deployment)
    requires d.environment.Production? && d.release.Active?
    ensures Reconciled([d], d.project, d.environment) == [d]
  {
    assert CandidateOf([d], 0) in Candidates([d], d.project, d.environment);
  }

  lemma ActivatesAlone(d: Deployment, releases: seq<Release>, history: seq<Entry>)
    requires d.project == 0 && d.environment.Production? && d.build.BuildReady? && d.serve.ServeReady?
    requires d.release.Draft? || d.release.Approved?
    ensures Activate(OneSite(d, releases, history), 0, Promote) ==
            Ok(OneSite(d.(release := Active), releases + [PUBLISHED], history + [ReleaseChanged(0, Active)]))
  {
    var s := OneSite(d, releases, history);
    assert FindActive(s.deployments, 1, 0) == FindActive(s.deployments, 0, 0) == None;
    assert TransitionRelease(d, Active) == Ok(d.(release := Active));
    assert s.deployments[0 := d.(release := Active)] == [d.(release := Active)];
    assert ChangeRelease(s, 0, Active) == Ok(OneSite(d.(release := Active), releases, history + [ReleaseChanged(0, Active)]));
  }

  lemma WaitingIsPublished(release: ReleaseStatus, releases: seq<Release>, history: seq<Entry>)
    requires release.Draft? || release.Approved?
    ensures CompletePendingRelease(OneSite(Queued(release, ServeReady), releases, history), 0)
            == Ok(OneSite(Built(ServeReady, Active), releases + [PUBLISHED], history + [ReleaseChanged(0, Active)]))
  {
    var d := Built(ServeReady, Active);
    ActiveIsDesired(d);
    ActivatesAlone(Queued(release, ServeReady), releases, history);
    var after, log := releases + [PUBLISHED], history + [ReleaseChanged(0, Active)];
    RowIsKept(d.(pending := Some(Promote)), d, after, log);
  }

  lemma QueuedIsPublished(release: ReleaseStatus, releases: seq<Release>, history: seq<Entry>)
    requires release.Draft? || release.Approved?
    ensures Step(OneSite(Queued(release, Syncing), releases, history), AServeReport(0, 0, true, ServeReady, None, ManualReview))
            == OneSite(Built(ServeReady, Active), releases + [PUBLISHED], history + [ReleaseChanged(0, Active)])
  {
    var d := Built(ServeReady, Active);
    WaitingIsPublished(release, releases, history);
    ActiveIsDesired(d);
    var s, served := OneSite(Queued(release, Syncing), releases, history), OneSite(Queued(release, ServeReady), releases, history);
    assert SetRow(s, 0, Queued(release, ServeReady)) == served;
    ReadyReport(s, 0, 0, ManualReview);
  }

  /** A promotion by a handler that saw an approved deployment, and the two reports of the node. */
  const PROMOTION: seq<Action> :=
    [AActivate(0, true, Approved, Promote, ManualReview, Some(AUTOMATIC0), 0)]
    + [AServeReport(0, 0, true, Syncing, None, ManualReview)] + [AServeReport(0, 0, true, ServeReady, None, ManualReview)]

  lemma PromotionPublishes(before: seq<Action>, release: ReleaseStatus, releases: seq<Release>, history: seq<Entry>)
    requires release.Draft? || release.Approved?
    requires Run(before) == OneSite(Withdrawn(release), releases, history)
    ensures Run(before + PROMOTION) == OneSite(Built(ServeReady, Active), releases + [PUBLISHED], history + [ReleaseChanged(0, Active)])
  {
    var one := before + [PROMOTION[0]];
    WithdrawnIsQueued(release, releases, history);
    Follows(before, Run(before), PROMOTION[0], OneSite(Queued(release, ServePending), releases, history));
    Reported(Queued(release, ServePending), releases, history, ManualReview);
    Follows(one, Run(one), PROMOTION[1], OneSite(Queued(release, Syncing), releases, history));
    QueuedIsPublished(release, releases, history);
    Unfold(one + [PROMOTION[1]], OneSite(Queued(release, Syncing), releases, history), PROMOTION[2]);
    assert before + PROMOTION == one + [PROMOTION[1]] + [PROMOTION[2]];
  }

  // --- A withdrawn review ------------------------------------------------------------------------------

  const IN_REVIEW: seq<Action> :=
    BUILDING_SITE + [AFinalizeReady(0, ManualReview)] + [AServeReport(0, 0, true, Syncing, None, ManualReview)]
    + [AServeReport(0, 0, true, ServeReady, None, ManualReview)]

  const SUBMITTED := [ReleaseChanged(0, PendingReview)]

  const WITHDRAWAL: seq<Action> := IN_REVIEW + [ARemovePublication(0, TeamUser)] + PROMOTION

  lemma SiteIsInReview()
    ensures Run(IN_REVIEW) == OneSite(Built(ServeReady, PendingReview), [], SUBMITTED)
  {
    SiteIsBuilding();
    FinalizedInReview();
    var one := BUILDING_SITE + [AFinalizeReady(0, ManualReview)];
    Follows(BUILDING_SITE, Run(BUILDING_SITE), AFinalizeReady(0, ManualReview), OneSite(Built(ServePending, PendingReview), [], SUBMITTED));
    Reported(Built(ServePending, PendingReview), [], SUBMITTED, ManualReview);
    var syncing := AServeReport(0, 0, true, Syncing, None, ManualReview);
    Follows(one, Run(one), syncing, OneSite(Built(Syncing, PendingReview), [], SUBMITTED));
    ServedInReview(SUBMITTED);
    Unfold(one + [syncing], OneSite(Built(Syncing, PendingReview), [], SUBMITTED), AServeReport(0, 0, true, ServeReady, None, ManualReview));
  }

  lemma RunsAreManual()
    ensures forall a :: a in IN_REVIEW ==> UnderManualReview(a)
    ensures forall a :: a in PROMOTION ==> UnderManualReview(a)
  {
  }

  /** A team withdraws its deployment while the review is open, which approves it, and then promotes it: it is
      published, and no review of it was ever approved. */
  lemma WithdrawalPublishes()
    ensures forall a :: a in WITHDRAWAL ==> UnderManualReview(a)
    ensures |Run(WITHDRAWAL).deployments| == 1 && Run(WITHDRAWAL).deployments[0].release.Active?
    ensures forall e :: e in Run(WITHDRAWAL).history ==> !e.ReviewApproved?
    ensures !ApprovedSinceDraft(Run(WITHDRAWAL).history, 0)
  {
    RunsAreManual();
    SiteIsInReview();
    Removed(TeamUser, PendingReview, [], SUBMITTED);
    var before := IN_REVIEW + [ARemovePublication(0, TeamUser)];
    var history := SUBMITTED + [ReleaseChanged(0, Approved)];
    Follows(IN_REVIEW, Run(IN_REVIEW), ARemovePublication(0, TeamUser), OneSite(Withdrawn(Approved), [], history));
    PromotionPublishes(before, Approved, [], history);
    var final := history + [ReleaseChanged(0, Active)];
    NoReviewNoApproval(final, 0);
    assert Run(WITHDRAWAL).history == final;
  }

  lemma {:induction false} NoReviewNoApproval(history: seq<Entry>, i: nat)
    requires forall e :: e in history ==> !e.ReviewApproved?
    ensures !ApprovedSinceDraft(history, i)
  {
    if history != [] { NoReviewNoApproval(history[..|history| - 1], i); }
  }

  // --- A promotion that comes late ---------------------------------------------------------------------

  /** The site is approved, published and withdrawn by its team: a handler may see it approved now. */
  const APPROVED_SITE: seq<Action> := IN_REVIEW + [AReview(0, true, None, 0)] + [ARemovePublication(0, TeamUser)]

  /** Another promotion publishes it and an administrator withdraws it; then that handler goes on. */
  const LATE_PROMOTION: seq<Action> := APPROVED_SITE + PROMOTION + [ARemovePublication(0, PlatformAdmin)] + PROMOTION

  const APPROVAL := SUBMITTED + [ReleaseChanged(0, Approved)] + [ReviewApproved(0)] + [ReleaseChanged(0, Active)] + [ReleaseChanged(0, Approved)]

  lemma ReviewPublishes()
    ensures Step(OneSite(Built(ServeReady, PendingReview), [], SUBMITTED), AReview(0, true, None, 0))
            == OneSite(Built(ServeReady, Active), [PUBLISHED],
                       SUBMITTED + [ReleaseChanged(0, Approved)] + [ReviewApproved(0)] + [ReleaseChanged(0, Active)])
  {
    ActiveIsDesired(Built(ServeReady, Active));
    var approved := OneSite(Built(ServeReady, Approved), [], SUBMITTED + [ReleaseChanged(0, Approved)] + [ReviewApproved(0)]);
    ActivatesAlone(Built(ServeReady, Approved), [], approved.history);
  }

  lemma SiteIsApproved()
    ensures Run(APPROVED_SITE) == OneSite(Withdrawn(Approved), [PUBLISHED], APPROVAL)
  {
    SiteIsInReview();
    ReviewPublishes();
    var history := SUBMITTED + [ReleaseChanged(0, Approved)] + [ReviewApproved(0)] + [ReleaseChanged(0, Active)];
    var one := IN_REVIEW + [AReview(0, true, None, 0)];
    Follows(IN_REVIEW, Run(IN_REVIEW), AReview(0, true, None, 0), OneSite(Built(ServeReady, Active), [PUBLISHED], history));
    Removed(TeamUser, Active, [PUBLISHED], history);
    Unfold(one, Run(one), ARemovePublication(0, TeamUser));
  }

  const LATE_LOG := APPROVAL + [ReleaseChanged(0, Active)] + [ReleaseChanged(0, Draft)] + [ReleaseChanged(0, Active)]

  lemma LateLog()
    ensures !ApprovedSinceDraft(LATE_LOG, 0) && !LeftReviewUndecided(LATE_LOG, 0)
  {
    var drafted := APPROVAL + [ReleaseChanged(0, Active)] + [ReleaseChanged(0, Draft)];
    EntryIsLocal(APPROVAL + [ReleaseChanged(0, Active)], ReleaseChanged(0, Draft), 0);
    EntryIsLocal(drafted, ReleaseChanged(0, Active), 0);
  }

  lemma LatePromotionRuns()
    ensures Run(LATE_PROMOTION) == OneSite(Built(ServeReady, Active), [PUBLISHED] + [PUBLISHED] + [PUBLISHED], LATE_LOG)
  {
    SiteIsApproved();
    PromotionPublishes(APPROVED_SITE, Approved, [PUBLISHED], APPROVAL);
    var once := APPROVED_SITE + PROMOTION;
    var published := APPROVAL + [ReleaseChanged(0, Active)];
    Removed(PlatformAdmin, Active, [PUBLISHED] + [PUBLISHED], published);
    var drafted := published + [ReleaseChanged(0, Draft)];
    Follows(once, Run(once), ARemovePublication(0, PlatformAdmin), OneSite(Withdrawn(Draft), [PUBLISHED] + [PUBLISHED], drafted));
    PromotionPublishes(once + [ARemovePublication(0, PlatformAdmin)], Draft, [PUBLISHED] + [PUBLISHED], drafted);
  }

  /** A handler that saw the deployment approved releases it after it has become a draft again: it is published,
      although no review approved it since, and although no open review was ever withdrawn. */
  lemma LatePromotionPublishes()
    ensures forall a :: a in LATE_PROMOTION ==> UnderManualReview(a)
    ensures |Run(LATE_PROMOTION).deployments| == 1 && Run(LATE_PROMOTION).deployments[0].release.Active?
    ensures Run(LATE_PROMOTION).history == LATE_LOG && !ApprovedSinceDraft(LATE_LOG, 0) && !LeftReviewUndecided(LATE_LOG, 0)
  {
    RunsAreManual();
    LatePromotionRuns();
    LateLog();
  }

  // --- A stranded release --------------------------------------------------------------------------------

  /** Under automatic review a draft is queued; then the policy becomes manual and it is promoted again. */
  const STRANDING: seq<Action> :=
    BUILDING_SITE + [AFinalizeReady(0, AutoReview)] + [AServeReport(0, 0, true, Syncing, None, AutoReview)]
    + [AActivate(0, true, Draft, Promote, AutoReview, None, 0)] + [AActivate(0, true, Draft, Promote, ManualReview, None, 0)]

  lemma DraftIsQueued()
    ensures Step(OneSite(Built(Syncing, Draft), [], []), AActivate(0, true, Draft, Promote, AutoReview, None, 0))
            == OneSite(Queued(Draft, Syncing), [], [])
  {
    UnservedIsQueued(OneSite(Built(Syncing, Draft), [], []), 0, Draft, AutoReview, None, 0);
    WaitingIsDesired(Queued(Draft, Syncing));
    RowIsKept(Built(Syncing, Draft), Queued(Draft, Syncing), [], []);
  }

  lemma QueuedIsSubmitted()
    ensures Step(OneSite(Queued(Draft, Syncing), [], []), AActivate(0, true, Draft, Promote, ManualReview, None, 0))
            == OneSite(Queued(PendingReview, Syncing), [], SUBMITTED)
  {
  }

  lemma SiteIsStranded()
    ensures Run(STRANDING) == OneSite(Queued(PendingReview, Syncing), [], SUBMITTED)
  {
    SiteIsBuilding();
    FinalizedAsDraft();
    var one := BUILDING_SITE + [AFinalizeReady(0, AutoReview)];
    Follows(BUILDING_SITE, Run(BUILDING_SITE), AFinalizeReady(0, AutoReview), OneSite(Built(ServePending, Draft), [], []));
    var syncing := AServeReport(0, 0, true, Syncing, None, AutoReview);
    Reported(Built(ServePending, Draft), [], [], AutoReview);
    Follows(one, Run(one), syncing, OneSite(Built(Syncing, Draft), [], []));
    var queue := AActivate(0, true, Draft, Promote, AutoReview, None, 0);
    DraftIsQueued();
    Follows(one + [syncing], Run(one + [syncing]), queue, OneSite(Queued(Draft, Syncing), [], []));
    QueuedIsSubmitted();
    Unfold(one + [syncing] + [queue], OneSite(Queued(Draft, Syncing), [], []), AActivate(0, true, Draft, Promote, ManualReview, None, 0));
  }

  /** After this run the release can never be carried out, reviewed or withdrawn, and its environment refuses
      every other release. */
  lemma StrandingIsForever(later: seq<Action>)
    ensures var s := RunFrom(Run(STRANDING), later);
            && |s.deployments| > 0 && s.deployments[0].pending.Some? && !s.deployments[0].release.Active?
            && forall reason: ReleaseReason, chosen: Option<Placement>, now: int ::
                 RequestRelease(s, 0, reason, chosen, now) == Err(ReleaseAlreadyPending)
  {
    SiteIsStranded();
    StrandedForever(Run(STRANDING), later, 0);
  }

  // --- A canceled build that comes back --------------------------------------------------------------------

  const RESTART: seq<Action> := BUILDING_SITE + [AUnsuccessful(0, BuildCanceled)] + [ABuildProgress(0, Claimed, Building)]

  /** A build report that was checked before the cancellation puts the canceled build back in progress; it has
      given up its node by then. */
  lemma CanceledBuildRestarts()
    ensures |Run(RESTART).deployments| == 1 && Run(RESTART).deployments[0].build.Building? && Run(RESTART).deployments[0].serve.Retired?
    ensures !Consistent(Run(RESTART).deployments)
  {
    SiteIsBuilding();
    CancellationRetires();
    var canceled := CANCELED;
    Follows(BUILDING_SITE, Run(BUILDING_SITE), AUnsuccessful(0, BuildCanceled), OneSite(canceled, [], []));
    Unfold(BUILDING_SITE + [AUnsuccessful(0, BuildCanceled)], OneSite(canceled, [], []), ABuildProgress(0, Claimed, Building));
    assert Step(OneSite(canceled, [], []), ABuildProgress(0, Claimed, Building)) == OneSite(canceled.(build := Building), [], []);
    var d := Run(RESTART).deployments[0];
    assert d.serve.Retired? && InProgress(d.build);
  }
}
