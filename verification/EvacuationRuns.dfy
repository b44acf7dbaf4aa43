/** Runs in which a node is assigned more than it holds, or is deleted while something is live on it. */
module EvacuationRuns {
  import opened Basics
  import opened Lifecycle
  import opened Scheduler
  import opened Delivery
  import opened ControlPlane
  import opened Evacuation
  import opened Capacity
  import opened Assignments
  import opened NodeSafety
  import opened ExampleRuns

  // --- An upload during an evacuation ---------------------------------------------------------

  const ONNODE1 := Placement(1, "eu", false, Manual)

  const TWO_NODES: seq<Action> :=
    [ACreateNode("eu", SMALL)] + [ANodeActivity(0, NodePending, true, true, true, 0)] + [ACreateNode("eu", SMALL)]
    + [ANodeActivity(1, NodePending, true, true, true, 0)]

  const TWO_SITES: seq<Action> :=
    TWO_NODES + [ACreate(0, Production, false, None, Some(0), Some(ONNODE0), 0)]
    + [ACreate(1, Production, false, None, Some(1), Some(ONNODE1), 0)]

  const GROWING_EVACUATION: seq<Action> :=
    TWO_SITES + [AClaim(0, 1)] + [ABuildProgress(0, Claimed, Building)] + [AEnqueue(0, Some(1), 0)] + [AUpload(0, 500)]
    + [AFinalizeReady(0, AutoReview)] + [AServeReport(0, 1, true, ServeReady, Some(0), AutoReview)] + [AProcessJob(0, 0, {})]

  const NEIGHBOUR := Site(1, BuildPending, ServePending, Draft, None, Some(1), 256)

  function TwoSites(d: Deployment): State {
    State([d, NEIGHBOUR], [NodeUp(SMALL), NodeUp(SMALL)], [], [], [])
  }

  function Evacuating(d: Deployment, row: RowStatus): State {
    State([d, NEIGHBOUR], [NodeUp(SMALL).(status := NodeDraining), NodeUp(SMALL)],
          [Job(0, Some(1), JobQueued, 1, 0, 0, map[0 := row])], [], [])
  }

  lemma NoJobsShare(s: State, n: nat, m: Measure, i: nat)
    requires s.jobs == [] && i < |s.deployments|
    ensures UsageShare(s, n, m, i) == AssignedShare(s.deployments[i], n, m)
  {
  }

  lemma UsageOfTwo(d: Deployment, n: nat, m: Measure)
    ensures ScheduledUsage(TwoSites(d), n, m) == AssignedShare(d, n, m) + AssignedShare(NEIGHBOUR, n, m)
    ensures AssignedUsage(TwoSites(d).deployments, n, m) == AssignedShare(d, n, m) + AssignedShare(NEIGHBOUR, n, m)
  {
    var s := TwoSites(d);
    NoJobsShare(s, n, m, 0);
    NoJobsShare(s, n, m, 1);
    assert Sum(1, UsageTerm(s, n, m)) == UsageTerm(s, n, m)(0);
    assert Sum(1, AssignedTerm(s.deployments, n, m)) == AssignedTerm(s.deployments, n, m)(0);
  }

  lemma NeighbourHasRoom(d: Deployment)
    requires d == Site(0, Building, ServePending, Draft, Some(1), Some(0), 256)
    ensures IsEligibleTarget(TwoSites(d), 0, 1, 0)
  {
    var s := TwoSites(d);
    forall m: Measure ensures ScheduledUsage(s, 1, m) == Weight(m, NEIGHBOUR) && AssignedUsage(s.deployments, 0, m) == Weight(m, d) {
      UsageOfTwo(d, 1, m);
      UsageOfTwo(d, 0, m);
    }
    CandidateCanHostMeans(CandidateFor(s, 1), s.deployments, 0);
  }

  lemma OneRowJob(d: Deployment)
    requires d == Site(0, Building, ServePending, Draft, Some(1), Some(0), 256)
    ensures NewJob(TwoSites(d), 0, Some(1)) == Job(0, Some(1), JobQueued, 1, 0, 0, map[0 := RowPending])
  {
    var s := TwoSites(d);
    assert AssignedIds(s.deployments, 0) == {0};
    NoBuilds(s.deployments, 0);
    assert NewJob(s, 0, Some(1)).rows == map[0 := RowPending];
  }

  lemma EvacuationStarts(d: Deployment)
    requires d == Site(0, Building, ServePending, Draft, Some(1), Some(0), 256)
    ensures Step(TwoSites(d), AEnqueue(0, Some(1), 0)) == Evacuating(d, RowPending)
  {
    var s := TwoSites(d);
    NeighbourHasRoom(d);
    OneRowJob(d);
    assert s.jobs + [NewJob(s, 0, Some(1))] == [NewJob(s, 0, Some(1))];
    assert s.nodes[0 := s.nodes[0].(status := NodeDraining)] == Evacuating(d, RowPending).nodes;
  }

  lemma ArtifactGrows(d: Deployment)
    requires d == Site(0, Building, ServePending, Draft, Some(1), Some(0), 256)
    ensures Step(Evacuating(d, RowPending), AUpload(0, 500)) == Evacuating(d.(resources := ServeResources(50, 64, 500)), RowPending)
  {
    UsageOfTwo(d, 0, Disk);
  }

  lemma EvacueeIsFinalized(d: Deployment)
    requires d == Site(0, Building, ServePending, Draft, Some(1), Some(0), 500)
    ensures Step(Evacuating(d, RowPending), AFinalizeReady(0, AutoReview)) == Evacuating(d.(build := BuildReady), RowPending)
  {
    var ds := [d.(build := BuildReady), NEIGHBOUR];
    var cs := Candidates(ds, 0, Production);
    assert CandidateOf(ds, 0) in cs;
    assert LastAmong(cs, CandidateOf(ds, 0), Deliverable);
    assert Reconciled(ds, 0, Production) == ds;
  }

  lemma ShadowIsReady(d: Deployment)
    requires d == Site(0, BuildReady, ServePending, Draft, Some(1), Some(0), 500)
    ensures Step(Evacuating(d, RowPending), AServeReport(0, 1, true, ServeReady, Some(0), AutoReview)) == Evacuating(d, RowReady)
  {
    assert map[0 := RowPending][0 := RowReady] == map[0 := RowReady];
  }

  lemma RoutesAreCut(d: Deployment)
    requires d == Site(0, BuildReady, ServePending, Draft, Some(1), Some(0), 500)
    ensures var s' := Step(Evacuating(d, RowReady), AProcessJob(0, 0, {}));
            s'.deployments == [d.(serveNode := Some(1)), NEIGHBOUR] && |s'.nodes| == 2 && s'.nodes[1] == NodeUp(SMALL)
  {
    var s := Evacuating(d, RowReady);
    var job := s.jobs[0];
    AllRowsReady(d);
    assert Switched(s.deployments, job) == [d.(serveNode := Some(1)), NEIGHBOUR];
    PassEffect(s, 0, 0, {});
  }

  lemma AllRowsReady(d: Deployment)
    requires d == Site(0, BuildReady, ServePending, Draft, Some(1), Some(0), 500)
    ensures var s := Evacuating(d, RowReady);
            && SettledRows(s.jobs[0], s.deployments, {}) == map[0 := RowReady]
            && |RowsWith(map[0 := RowReady], RowReady)| == 1 && |RowsWith(map[0 := RowReady], RowFailed)| == 0
            && ActiveBuildCount(s.deployments, 0) == 0
  {
    var s := Evacuating(d, RowReady);
    assert SettledRows(s.jobs[0], s.deployments, {}) == map[0 := RowReady];
    assert RowsWith(map[0 := RowReady], RowReady) == {0};
    assert RowsWith(map[0 := RowReady], RowFailed) == {};
    NoBuilds(s.deployments, 0);
  }

  lemma NodesAreUp()
    ensures Run(TWO_NODES) == State([], [NodeUp(SMALL), NodeUp(SMALL)], [], [], [])
  {
    NodeIsUp();
    var fresh0 := Node(NodePending, false, true, true, false, None, "eu", SMALL);
    var two := [ACreateNode("eu", SMALL)] + [ANodeActivity(0, NodePending, true, true, true, 0)];
    var s2 := State([], [NodeUp(SMALL)], [], [], []);
    Unfold(two, s2, ACreateNode("eu", SMALL));
    var three := two + [ACreateNode("eu", SMALL)];
    var s3 := State([], [NodeUp(SMALL), fresh0], [], [], []);
    assert Step(s2, ACreateNode("eu", SMALL)) == s3;
    NodeComesUp(s3, 1);
    Unfold(three, s3, ANodeActivity(1, NodePending, true, true, true, 0));
  }

  lemma SitesAreCreated()
    ensures Run(TWO_SITES) == TwoSites(Site(0, BuildPending, ServePending, Draft, None, Some(0), 256))
  {
    NodesAreUp();
    SitesArePlaced(TWO_NODES);
  }

  lemma SitesArePlaced(up: seq<Action>)
    requires Run(up) == State([], [NodeUp(SMALL), NodeUp(SMALL)], [], [], [])
    ensures Run(up + [ACreate(0, Production, false, None, Some(0), Some(ONNODE0), 0)]
                   + [ACreate(1, Production, false, None, Some(1), Some(ONNODE1), 0)])
            == TwoSites(Site(0, BuildPending, ServePending, Draft, None, Some(0), 256))
  {
    var s := Run(up);
    var d := Site(0, BuildPending, ServePending, Draft, None, Some(0), 256);
    CanPlace(s, 0, ONNODE0);
    Unfold(up, s, ACreate(0, Production, false, None, Some(0), Some(ONNODE0), 0));
    var s' := s.(deployments := [d]);
    assert Step(s, ACreate(0, Production, false, None, Some(0), Some(ONNODE0), 0)) == s';
    forall m: Measure ensures ScheduledUsage(s', 1, m) == 0 { NoJobsShare(s', 1, m, 0); }
    CanPlace(s', 1, ONNODE1);
    Unfold(up + [ACreate(0, Production, false, None, Some(0), Some(ONNODE0), 0)], s', ACreate(1, Production, false, None, Some(1), Some(ONNODE1), 0));
  }

  lemma EvacueeIsBuilding(before: seq<Action>)
    requires Run(before) == TwoSites(Site(0, BuildPending, ServePending, Draft, None, Some(0), 256))
    ensures Run(before + [AClaim(0, 1)] + [ABuildProgress(0, Claimed, Building)])
            == TwoSites(Site(0, Building, ServePending, Draft, Some(1), Some(0), 256))
  {
    Unfold(before, Run(before), AClaim(0, 1));
    var claimed := TwoSites(Site(0, Claimed, ServePending, Draft, Some(1), Some(0), 256));
    assert Step(Run(before), AClaim(0, 1)) == claimed;
    Unfold(before + [AClaim(0, 1)], claimed, ABuildProgress(0, Claimed, Building));
  }

  /** A reachable state in which a node is assigned more disk than it has: a build that finishes while its
      node is being emptied uploads an artifact that fits its old node but not the target of the job. */
  lemma EvacuationOverfills()
    ensures var s := Run(GROWING_EVACUATION);
            |s.nodes| == 2 && AssignedUsage(s.deployments, 1, Disk) > s.nodes[1].capacity.disk && !AssignedWithin(s)
  {
    SitesAreCreated();
    EvacueeIsBuilding(TWO_SITES);
    var building := Site(0, Building, ServePending, Draft, Some(1), Some(0), 256);
    var grown := building.(resources := ServeResources(50, 64, 500));
    var ready := grown.(build := BuildReady);
    var a1 := TWO_SITES + [AClaim(0, 1)] + [ABuildProgress(0, Claimed, Building)];
    EvacuationStarts(building);
    Unfold(a1, TwoSites(building), AEnqueue(0, Some(1), 0));
    ArtifactGrows(building);
    Unfold(a1 + [AEnqueue(0, Some(1), 0)], Evacuating(building, RowPending), AUpload(0, 500));
    var a2 := a1 + [AEnqueue(0, Some(1), 0)] + [AUpload(0, 500)];
    EvacueeIsFinalized(grown);
    Unfold(a2, Evacuating(grown, RowPending), AFinalizeReady(0, AutoReview));
    ShadowIsReady(ready);
    Unfold(a2 + [AFinalizeReady(0, AutoReview)], Evacuating(ready, RowPending), AServeReport(0, 1, true, ServeReady, Some(0), AutoReview));
    CutoverOverfills(a2 + [AFinalizeReady(0, AutoReview)] + [AServeReport(0, 1, true, ServeReady, Some(0), AutoReview)], ready);
    var s := Run(GROWING_EVACUATION);
    assert Hard(Disk) && Limit(s.nodes[1], Disk) == s.nodes[1].capacity.disk;
    assert !NodeWithin(s, 1);
  }

  lemma CutoverOverfills(before: seq<Action>, ready: Deployment)
    requires ready == Site(0, BuildReady, ServePending, Draft, Some(1), Some(0), 500)
    requires Run(before) == Evacuating(ready, RowReady)
    ensures var s := Run(before + [AProcessJob(0, 0, {})]);
            |s.nodes| == 2 && AssignedUsage(s.deployments, 1, Disk) > s.nodes[1].capacity.disk
  {
    var s := Step(Evacuating(ready, RowReady), AProcessJob(0, 0, {}));
    Follows(before, Evacuating(ready, RowReady), AProcessJob(0, 0, {}), s);
    RoutesAreCut(ready);
    TargetIsOverfull(ready.(serveNode := Some(1)));
  }

  lemma TargetIsOverfull(d: Deployment)
    requires d == Site(0, BuildReady, ServePending, Draft, Some(1), Some(1), 500)
    ensures AssignedUsage([d, NEIGHBOUR], 1, Disk) == 756
  {
    UsageOfTwo(d, 1, Disk);
    assert TwoSites(d).deployments == [d, NEIGHBOUR];
  }

  // --- A heartbeat that comes late --------------------------------------------------------------

  /** A heartbeat that authenticated before the deletion was requested makes the node Active again; a deployment
      is placed there, and the job, which lists nothing, deletes the node. */
  const REVIVAL: seq<Action> :=
    [ACreateNode("eu", SMALL)] + [ANodeActivity(0, NodePending, true, true, true, 0)] + [AEnqueue(0, None, 0)]
    + [ANodeActivity(0, NodeActive, true, true, true, 0)] + [ACreate(0, Production, false, None, Some(0), Some(ONNODE0), 0)]
    + [AProcessJob(0, 0, {})] + [AProcessJob(0, 0, {})]

  function Emptying(ds: seq<Deployment>, node: Node, status: JobStatus): State {
    State(ds, [node], [Job(0, None, status, 0, 0, 0, map[])], [], [])
  }

  const PLACED := Site(0, BuildPending, ServePending, Draft, None, Some(0), 256)

  lemma DeletionStarts(ds: seq<Deployment>)
    requires forall i: nat :: i < |ds| ==> !LiveOn(ds[i], 0) && !BuildingOn(ds[i], 0)
    ensures Step(State(ds, [NodeUp(SMALL)], [], [], []), AEnqueue(0, None, 0))
            == Emptying(ds, NodeUp(SMALL).(status := NodeDraining), JobQueued)
  {
    assert AssignedIds(ds, 0) == {};
    NoBuilds(ds, 0);
  }

  lemma NoBuilds(ds: seq<Deployment>, n: nat)
    requires forall i: nat :: i < |ds| ==> !BuildingOn(ds[i], n)
    ensures ActiveBuildCount(ds, n) == 0
  {
    assert (set i: nat | i < |ds| && BuildingOn(ds[i], n)) == {};
  }

  lemma NodeRevives()
    ensures Step(Emptying([], NodeUp(SMALL).(status := NodeDraining), JobQueued), ANodeActivity(0, NodeActive, true, true, true, 0))
            == Emptying([], NodeUp(SMALL), JobQueued)
  {
  }

  lemma SiteIsPlaced()
    ensures Step(Emptying([], NodeUp(SMALL), JobQueued), ACreate(0, Production, false, None, Some(0), Some(ONNODE0), 0))
            == Emptying([PLACED], NodeUp(SMALL), JobQueued)
  {
    CanPlace(Emptying([], NodeUp(SMALL), JobQueued), 0, ONNODE0);
  }

  lemma EmptyJobPasses(ds: seq<Deployment>, node: Node, status: JobStatus)
    requires status.JobQueued? || status.JobDeleting?
    requires forall i: nat :: i < |ds| ==> !BuildingOn(ds[i], 0)
    ensures Step(Emptying(ds, node, status), AProcessJob(0, 0, {})) ==
            if status.JobQueued? then Emptying(ds, node, JobDeleting)
            else Emptying(ds, node.(status := NodeDisabled, deleted := true), JobCompleted)
  {
    var s := Emptying(ds, node, status);
    assert SettledRows(s.jobs[0], s.deployments, {}) == map[];
    assert RowsWith(map[], RowReady) == {} && RowsWith(map[], RowFailed) == {};
    NoBuilds(s.deployments, 0);
  }

  /** A reachable state in which a deleted node has a live deployment. */
  lemma RevivalDeletesInUse()
    ensures var s := Run(REVIVAL);
            && |s.nodes| == 1 && s.nodes[0].deleted && |s.deployments| == 1 && LiveOn(s.deployments[0], 0) && !Idle(s)
  {
    NodeIsUp();
    DeletionStarts([]);
    NodeRevives();
    SiteIsPlaced();
    EmptyJobPasses([PLACED], NodeUp(SMALL), JobQueued);
    EmptyJobPasses([PLACED], NodeUp(SMALL), JobDeleting);
    var up := [ACreateNode("eu", SMALL)] + [ANodeActivity(0, NodePending, true, true, true, 0)];
    Follows(up, Run(up), AEnqueue(0, None, 0), Emptying([], NodeUp(SMALL).(status := NodeDraining), JobQueued));
    var one := up + [AEnqueue(0, None, 0)];
    Follows(one, Run(one), ANodeActivity(0, NodeActive, true, true, true, 0), Emptying([], NodeUp(SMALL), JobQueued));
    var two := one + [ANodeActivity(0, NodeActive, true, true, true, 0)];
    var create := ACreate(0, Production, false, None, Some(0), Some(ONNODE0), 0);
    Follows(two, Run(two), create, Emptying([PLACED], NodeUp(SMALL), JobQueued));
    Follows(two + [create], Run(two + [create]), AProcessJob(0, 0, {}), Emptying([PLACED], NodeUp(SMALL), JobDeleting));
    Unfold(two + [create] + [AProcessJob(0, 0, {})], Emptying([PLACED], NodeUp(SMALL), JobDeleting), AProcessJob(0, 0, {}));
    assert !RowIdle(Run(REVIVAL), Run(REVIVAL).deployments[0]);
  }

  // --- A build report that comes late ------------------------------------------------------------

  /** The build is canceled, its node is emptied and deleted, and a report from before the cancellation commits. */
  const LATE_REPORT: seq<Action> :=
    BUILDING_SITE + [AUnsuccessful(0, BuildCanceled)] + [AEnqueue(0, None, 0)] + [AProcessJob(0, 0, {})] + [AProcessJob(0, 0, {})]
    + [ABuildProgress(0, Claimed, Building)]

  /** No heartbeat is late in this run, and a build runs on a deleted node. */
  lemma LateReportBuildsOnDeleted()
    ensures var s := Run(LATE_REPORT);
            && |s.nodes| == 1 && s.nodes[0].deleted && |s.deployments| == 1 && BuildingOn(s.deployments[0], 0) && !Idle(s)
  {
    SiteIsBuilding();
    CancellationRetires();
    DeletionStarts([CANCELED]);
    var draining := NodeUp(SMALL).(status := NodeDraining);
    EmptyJobPasses([CANCELED], draining, JobQueued);
    EmptyJobPasses([CANCELED], draining, JobDeleting);
    var canceled := BUILDING_SITE + [AUnsuccessful(0, BuildCanceled)];
    Follows(BUILDING_SITE, Run(BUILDING_SITE), AUnsuccessful(0, BuildCanceled), OneSite(CANCELED, [], []));
    Follows(canceled, Run(canceled), AEnqueue(0, None, 0), Emptying([CANCELED], draining, JobQueued));
    var queued := canceled + [AEnqueue(0, None, 0)];
    Follows(queued, Run(queued), AProcessJob(0, 0, {}), Emptying([CANCELED], draining, JobDeleting));
    LateReportEnds(queued + [AProcessJob(0, 0, {})]);
  }

  lemma LateReportEnds(before: seq<Action>)
    requires Run(before) == Emptying([CANCELED], NodeUp(SMALL).(status := NodeDraining), JobDeleting)
    ensures var s := Run(before + [AProcessJob(0, 0, {})] + [ABuildProgress(0, Claimed, Building)]);
            && |s.nodes| == 1 && s.nodes[0].deleted && |s.deployments| == 1 && BuildingOn(s.deployments[0], 0) && !Idle(s)
  {
    var draining := NodeUp(SMALL).(status := NodeDraining);
    EmptyJobPasses([CANCELED], draining, JobDeleting);
    var s := Emptying([CANCELED], draining.(status := NodeDisabled, deleted := true), JobCompleted);
    Follows(before, Run(before), AProcessJob(0, 0, {}), s);
    var s' := s.(deployments := [CANCELED.(build := Building)]);
    assert s.deployments[0 := CANCELED.(build := Building)] == s'.deployments;
    Follows(before + [AProcessJob(0, 0, {})], s, ABuildProgress(0, Claimed, Building), s');
    assert !RowIdle(s', s'.deployments[0]);
  }
}
