/** A run in which a cutover moves a deployment that was never copied. */
module CopyRuns {
  import opened Basics
  import opened Lifecycle
  import opened Scheduler
  import opened Delivery
  import opened ControlPlane
  import opened Effects
  import opened Evacuation
  import opened Capacity
  import opened ReleaseInvariants
  import opened Placements
  import opened Copies
  import opened Handlers
  import opened ExampleRuns
  import opened EvacuationRuns

  const CREATE0 := ACreate(0, Production, false, None, Some(0), Some(ONNODE0), 0)
  const CREATE1 := ACreate(1, Production, false, None, Some(0), Some(ONNODE0), 0)

  /** Two sites on the first of two nodes. */
  const SHARED: seq<Action> := TWO_NODES + [CREATE0] + [CREATE1]

  /** The first site was built, and its release waits. */
  const PREPARED: seq<Action> :=
    SHARED + [AClaim(0, 1)] + [ABuildProgress(0, Claimed, Building)] + [AFinalizeReady(0, AutoReview)]
    + [AActivate(0, true, Draft, Promote, AutoReview, None, 0)]

  /** A late report has the build run again; the deletion of the node is requested, and the build fails. */
  const EMPTYING: seq<Action> :=
    PREPARED + [ABuildProgress(0, Claimed, Building)] + [AEnqueue(0, Some(1), 0)] + [AUnsuccessful(0, BuildFailed)]

  /** A pass counts the failed site as copied; another late report has its build run again; the other site is copied. */
  const UNCOPIED: seq<Action> :=
    EMPTYING + [AProcessJob(0, 0, {})] + [ABuildProgress(0, Claimed, Building)] + [AServeReport(1, 1, true, ServeReady, Some(0), AutoReview)]

  function First(build: BuildStatus, pending: Option<ReleaseReason>): Deployment {
    Site(0, build, ServePending, Draft, Some(1), Some(0), 256).(pending := pending)
  }

  const SECOND := Site(1, BuildPending, ServePending, Draft, None, Some(0), 256)

  function Both(d: Deployment): State {
    State([d, SECOND], [NodeUp(SMALL), NodeUp(SMALL)], [], [], [])
  }

  function Leaving(d: Deployment, status: JobStatus, migrated: nat, rows: map<nat, RowStatus>): State {
    State([d, SECOND], [NodeUp(SMALL).(status := NodeDraining), NodeUp(SMALL)], [Job(0, Some(1), status, 2, migrated, 0, rows)], [], [])
  }

  // --- Before the deletion ---------------------------------------------------------------------------

  lemma SitesShareANode()
    ensures Run(SHARED) == Both(Site(0, BuildPending, ServePending, Draft, None, Some(0), 256))
  {
    NodesAreUp();
    var s := Run(TWO_NODES);
    var d := Site(0, BuildPending, ServePending, Draft, None, Some(0), 256);
    CanPlace(s, 0, ONNODE0);
    var s' := s.(deployments := [d]);
    assert Step(s, CREATE0) == s';
    Follows(TWO_NODES, s, CREATE0, s');
    forall m: Measure ensures ScheduledUsage(s', 0, m) == Weight(m, d) { NoJobsShare(s', 0, m, 0); }
    CanPlace(s', 0, ONNODE0);
    assert Step(s', CREATE1) == Both(d);
    Follows(TWO_NODES + [CREATE0], s', CREATE1, Both(d));
  }

  lemma FirstIsFinalized()
    ensures Step(Both(First(Building, None)), AFinalizeReady(0, AutoReview)) == Both(First(BuildReady, None))
  {
    var ds := [First(BuildReady, None), SECOND];
    var cs := Candidates(ds, 0, Production);
    assert CandidateOf(ds, 0) in cs;
    assert LastAmong(cs, CandidateOf(ds, 0), Deliverable);
    assert Reconciled(ds, 0, Production) == ds;
    FinalizeExactly(Both(First(Building, None)), 0, AutoReview);
    assert Both(First(Building, None)).deployments[0 := First(BuildReady, None)] == ds;
  }

  lemma WaitingStays(d: Deployment)
    requires d.pending.Some? && d.project == 0 && d.environment == Production
    ensures Reconciled([d, SECOND], 0, Production) == [d, SECOND]
  {
    WaitingIsKept(Both(d), 0);
  }

  lemma FirstIsQueued()
    ensures Step(Both(First(BuildReady, None)), AActivate(0, true, Draft, Promote, AutoReview, None, 0)) == Both(First(BuildReady, Some(Promote)))
  {
    var s := Both(First(BuildReady, None));
    var a := AActivate(0, true, Draft, Promote, AutoReview, None, 0);
    ActivationDecision(s, 0, true, Draft, Promote, AutoReview, None, 0);
    assert DeploymentStep(s, a) == RequestRelease(s, 0, Promote, None, 0);
    RequestAnswers(s, 0, Promote, None, 0);
    RequestWrites(s, 0, Promote, None, 0, RequestRelease(s, 0, Promote, None, 0).value);
    WaitingStays(First(BuildReady, Some(Promote)));
    assert s.deployments[0 := First(BuildReady, Some(Promote))] == [First(BuildReady, Some(Promote)), SECOND];
  }

  lemma FirstWaits()
    ensures Run(PREPARED) == Both(First(BuildReady, Some(Promote)))
  {
    SitesShareANode();
    Follows(SHARED, Run(SHARED), AClaim(0, 1), Both(First(Claimed, None)));
    Follows(SHARED + [AClaim(0, 1)], Both(First(Claimed, None)), ABuildProgress(0, Claimed, Building), Both(First(Building, None)));
    var running := SHARED + [AClaim(0, 1)] + [ABuildProgress(0, Claimed, Building)];
    FirstIsFinalized();
    Follows(running, Run(running), AFinalizeReady(0, AutoReview), Both(First(BuildReady, None)));
    FirstIsQueued();
    Follows(running + [AFinalizeReady(0, AutoReview)], Both(First(BuildReady, None)), AActivate(0, true, Draft, Promote, AutoReview, None, 0),
            Both(First(BuildReady, Some(Promote))));
  }

  // --- The deletion ------------------------------------------------------------------------------------

  lemma UsageOfBoth(d: Deployment, n: nat, m: Measure)
    ensures ScheduledUsage(Both(d), n, m) == AssignedShare(d, n, m) + AssignedShare(SECOND, n, m)
    ensures AssignedUsage(Both(d).deployments, n, m) == AssignedShare(d, n, m) + AssignedShare(SECOND, n, m)
  {
    var s := Both(d);
    NoJobsShare(s, n, m, 0);
    NoJobsShare(s, n, m, 1);
    assert Sum(1, UsageTerm(s, n, m)) == UsageTerm(s, n, m)(0);
    assert Sum(1, AssignedTerm(s.deployments, n, m)) == AssignedTerm(s.deployments, n, m)(0);
  }

  lemma OtherNodeHasRoom(d: Deployment)
    requires d == First(Building, Some(Promote))
    ensures IsEligibleTarget(Both(d), 0, 1, 0)
  {
    var s := Both(d);
    forall m: Measure
      ensures ScheduledUsage(s, 1, m) == 0 && AssignedUsage(s.deployments, 0, m) == Weight(m, d) + Weight(m, SECOND)
    {
      UsageOfBoth(d, 1, m);
      UsageOfBoth(d, 0, m);
    }
    CandidateCanHostMeans(CandidateFor(s, 1), s.deployments, 0);
  }

  const BOTHPENDING: map<nat, RowStatus> := map[0 := RowPending, 1 := RowPending]

  lemma BothAreListed(d: Deployment)
    requires d == First(Building, Some(Promote))
    ensures NewJob(Both(d), 0, Some(1)) == Job(0, Some(1), JobQueued, 2, 0, 0, BOTHPENDING)
  {
    var s := Both(d);
    assert AssignedIds(s.deployments, 0) == {0, 1};
    NoBuilds(s.deployments, 0);
    assert NewJob(s, 0, Some(1)).rows == BOTHPENDING;
  }

  lemma DeletionIsRequested(d: Deployment)
    requires d == First(Building, Some(Promote))
    ensures Step(Both(d), AEnqueue(0, Some(1), 0)) == Leaving(d, JobQueued, 0, BOTHPENDING)
  {
    var s := Both(d);
    OtherNodeHasRoom(d);
    BothAreListed(d);
    assert s.jobs + [NewJob(s, 0, Some(1))] == [NewJob(s, 0, Some(1))];
    assert s.nodes[0 := s.nodes[0].(status := NodeDraining)] == Leaving(d, JobQueued, 0, BOTHPENDING).nodes;
  }

  lemma FirstFails()
    ensures Step(Leaving(First(Building, Some(Promote)), JobQueued, 0, BOTHPENDING), AUnsuccessful(0, BuildFailed))
            == Leaving(First(BuildFailed, Some(Promote)), JobQueued, 0, BOTHPENDING)
  {
    var s := Leaving(First(Building, Some(Promote)), JobQueued, 0, BOTHPENDING);
    var d := First(BuildFailed, Some(Promote));
    UnsuccessfulExactly(s, 0, BuildFailed);
    WaitingStays(d);
    assert s.deployments[0 := d] == [d, SECOND];
  }

  lemma NodeIsEmptying()
    ensures Run(EMPTYING) == Leaving(First(BuildFailed, Some(Promote)), JobQueued, 0, BOTHPENDING)
  {
    FirstWaits();
    var building := First(Building, Some(Promote));
    Follows(PREPARED, Run(PREPARED), ABuildProgress(0, Claimed, Building), Both(building));
    DeletionIsRequested(building);
    var one := PREPARED + [ABuildProgress(0, Claimed, Building)];
    Follows(one, Both(building), AEnqueue(0, Some(1), 0), Leaving(building, JobQueued, 0, BOTHPENDING));
    FirstFails();
    Follows(one + [AEnqueue(0, Some(1), 0)], Leaving(building, JobQueued, 0, BOTHPENDING), AUnsuccessful(0, BuildFailed),
            Leaving(First(BuildFailed, Some(Promote)), JobQueued, 0, BOTHPENDING));
  }

  const ONEREADY: map<nat, RowStatus> := map[0 := RowReady, 1 := RowPending]
  const BOTHREADY: map<nat, RowStatus> := map[0 := RowReady, 1 := RowReady]

  lemma FailedNeedsNoCopy(s: State)
    requires s == Leaving(First(BuildFailed, Some(Promote)), JobQueued, 0, BOTHPENDING)
    ensures NeedNone(s, s.jobs[0]) == {0} && Builds(s, 0) == 0
    ensures Waits(s, s.jobs[0]) && !GivesUp(s, s.jobs[0], 0, {})
  {
    assert 1 in s.jobs[0].rows && NeedsCopy(s, s.jobs[0], 1);
    assert !NeedsCopy(s, s.jobs[0], 0) && 0 in s.jobs[0].rows;
    BuildsMeans(s, 0);
    NoBuilds(s.deployments, 0);
  }

  lemma FailedCountsAsCopied(s: State, s': State)
    requires s == Leaving(First(BuildFailed, Some(Promote)), JobQueued, 0, BOTHPENDING) && s' == ProcessJob(s, 0, 0, {})
    ensures s' == Leaving(First(BuildFailed, Some(Promote)), JobMigrating, 1, ONEREADY)
  {
    FailedNeedsNoCopy(s);
    PassWaits(s, 0, 0, {}, s');
    assert !NeedsCopy(s, s.jobs[0], 0) && NeedsCopy(s, s.jobs[0], 1);
    WaitingJob(s, s', Leaving(First(BuildFailed, Some(Promote)), JobMigrating, 1, ONEREADY));
  }

  lemma PassRuns(actions: seq<Action>, s: State, s': State)
    requires Run(actions) == s && |s.jobs| == 1 && ProcessJob(s, 0, 0, {}) == s'
    ensures Run(actions + [AProcessJob(0, 0, {})]) == s'
  {
    Unfold(actions, s, AProcessJob(0, 0, {}));
  }

  lemma WaitingJob(s: State, s': State, expected: State)
    requires |s.jobs| == |expected.jobs| == 1 && OnlyJob(s, s', 0)
    requires expected == s.(jobs := expected.jobs) && expected.jobs[0] == s.jobs[0].(status := JobMigrating, migrated := 1, rows := ONEREADY)
    requires s'.jobs[0].status == JobMigrating && s'.jobs[0].migrated == 1 && s'.jobs[0].activeBuilds == s.jobs[0].activeBuilds
    requires s.jobs[0].rows == BOTHPENDING && s'.jobs[0].rows[0] == RowReady && s'.jobs[0].rows[1] == RowPending
    ensures s' == expected
  {
    assert s'.jobs[0].rows == ONEREADY;
  }

  lemma SecondIsCopied()
    ensures Step(Leaving(First(Building, Some(Promote)), JobMigrating, 1, ONEREADY), AServeReport(1, 1, true, ServeReady, Some(0), AutoReview))
            == Leaving(First(Building, Some(Promote)), JobMigrating, 1, BOTHREADY)
  {
    var s := Leaving(First(Building, Some(Promote)), JobMigrating, 1, ONEREADY);
    ReportWritesRow(s, AServeReport(1, 1, true, ServeReady, Some(0), AutoReview), 0, 1);
    assert ONEREADY[1 := RowReady] == BOTHREADY;
  }

  lemma FirstIsCounted(before: seq<Action>)
    requires Run(before) == Leaving(First(BuildFailed, Some(Promote)), JobQueued, 0, BOTHPENDING)
    ensures Run(before + [AProcessJob(0, 0, {})]) == Leaving(First(BuildFailed, Some(Promote)), JobMigrating, 1, ONEREADY)
  {
    FailedCountsAsCopied(Run(before), ProcessJob(Run(before), 0, 0, {}));
    PassRuns(before, Run(before), Leaving(First(BuildFailed, Some(Promote)), JobMigrating, 1, ONEREADY));
  }

  lemma FirstRunsAgain(s: State)
    requires s == Leaving(First(BuildFailed, Some(Promote)), JobMigrating, 1, ONEREADY)
    ensures Step(s, ABuildProgress(0, Claimed, Building)) == Leaving(First(Building, Some(Promote)), JobMigrating, 1, ONEREADY)
  {
    ProgressExactly(s, 0, Claimed, Building);
    assert s.deployments[0 := First(Building, Some(Promote))] == [First(Building, Some(Promote)), SECOND];
  }

  lemma CopyingGoesOn(before: seq<Action>)
    requires Run(before) == Leaving(First(BuildFailed, Some(Promote)), JobQueued, 0, BOTHPENDING)
    ensures Run(before + [AProcessJob(0, 0, {})] + [ABuildProgress(0, Claimed, Building)] + [AServeReport(1, 1, true, ServeReady, Some(0), AutoReview)])
            == Leaving(First(Building, Some(Promote)), JobMigrating, 1, BOTHREADY)
  {
    var failed, building := First(BuildFailed, Some(Promote)), First(Building, Some(Promote));
    var one := before + [AProcessJob(0, 0, {})];
    FirstIsCounted(before);
    FirstRunsAgain(Run(one));
    Follows(one, Leaving(failed, JobMigrating, 1, ONEREADY), ABuildProgress(0, Claimed, Building), Leaving(building, JobMigrating, 1, ONEREADY));
    SecondIsCopied();
    Follows(one + [ABuildProgress(0, Claimed, Building)], Leaving(building, JobMigrating, 1, ONEREADY),
            AServeReport(1, 1, true, ServeReady, Some(0), AutoReview), Leaving(building, JobMigrating, 1, BOTHREADY));
  }

  lemma OnlySecondIsCopied()
    ensures Run(UNCOPIED) == Leaving(First(Building, Some(Promote)), JobMigrating, 1, BOTHREADY)
  {
    NodeIsEmptying();
    CopyingGoesOn(EMPTYING);
  }

  /** A deployment no report names was not reported. */
  lemma {:induction false} NeverNamed(actions: seq<Action>, j: nat, i: nat)
    requires forall a :: a in actions && a.AServeReport? ==> a.deployment != i
    ensures Reported(actions, j, i) == None
  {
    if actions != [] { NeverNamed(actions[..|actions| - 1], j, i); }
  }

  lemma NothingIsLeftToCopy(s: State)
    requires s == Leaving(First(Building, Some(Promote)), JobMigrating, 1, BOTHREADY)
    ensures !Waits(s, s.jobs[0]) && !GivesUp(s, s.jobs[0], 0, {})
  {
  }

  lemma FirstIsMoved(s: State, s': State)
    requires s == Leaving(First(Building, Some(Promote)), JobMigrating, 1, BOTHREADY) && s' == ProcessJob(s, 0, 0, {})
    ensures |s'.deployments| == 2 && StandsOn(s, 0, 0) && StandsOn(s', 0, 1)
  {
    NothingIsLeftToCopy(s);
    PassProceeds(s, 0, 0, {}, s');
  }

  lemma FirstIsNeverNamed()
    ensures forall a :: a in UNCOPIED && a.AServeReport? ==> a.deployment != 0
  {
  }

  /** The next pass moves the route of the first deployment to a node that reported no copy of it. */
  ghost predicate MovesUncopied(actions: seq<Action>) {
    var s, s' := Run(actions), Run(actions + [AProcessJob(0, 0, {})]);
    && |s.jobs| == 1 && s.jobs[0].target == Some(1) && |s.deployments| == |s'.deployments| == 2
    && StandsOn(s, 0, 0) && StandsOn(s', 0, 1) && Reported(actions, 0, 0) == None && !CopiesReported(actions)
  }

  lemma UnreportedIsMoved(actions: seq<Action>)
    requires Run(actions) == Leaving(First(Building, Some(Promote)), JobMigrating, 1, BOTHREADY) && Reported(actions, 0, 0) == None
    ensures MovesUncopied(actions)
  {
    var s := Run(actions);
    var s' := ProcessJob(s, 0, 0, {});
    PassRuns(actions, s, s');
    FirstIsMoved(s, s');
    assert Uncopied(s, 0, 0, Reported(actions, 0, 0));
  }

  /** A run of sixteen transactions, with two late build reports. */
  lemma UncopiedIsMoved()
    ensures MovesUncopied(UNCOPIED)
  {
    OnlySecondIsCopied();
    FirstIsNeverNamed();
    NeverNamed(UNCOPIED, 0, 0);
    UnreportedIsMoved(UNCOPIED);
  }
}
