/** The deployments and nodes of the example runs, and their first steps. */
module ExampleRuns {
  import opened Basics
  import opened Lifecycle
  import opened Scheduler
  import opened Delivery
  import opened ControlPlane

  // --- One site on one node -----------------------------------------------------------------

  const SMALL := NodeResources(1000, 1000, 600, 10)
  const ONNODE0 := Placement(0, "eu", false, Manual)

  const BUILDING_SITE: seq<Action> :=
    [ACreateNode("eu", SMALL)] + [ANodeActivity(0, NodePending, true, true, true, 0)]
    + [ACreate(0, Production, false, None, Some(0), Some(ONNODE0), 0)] + [AClaim(0, 0)] + [ABuildProgress(0, Claimed, Building)]

  function NodeUp(capacity: NodeResources): Node {
    Node(NodeActive, false, true, true, true, Some(0), "eu", capacity)
  }

  function Site(project: nat, build: BuildStatus, serve: ServeStatus, release: ReleaseStatus, buildNode: Option<nat>,
                serveNode: Option<nat>, disk: nat): Deployment
  {
    Deployment(project, Production, "eu", 0, build, serve, release, None, buildNode, serveNode, ServeResources(50, 64, disk), false)
  }

  function OneSite(d: Deployment, releases: seq<Release>, history: seq<Entry>): State {
    State([d], [NodeUp(SMALL)], [], releases, history)
  }

  /** A manual placement on a node with one small site at most is a possible answer of the scheduler. */
  lemma CanPlace(s: State, n: nat, p: Placement)
    requires n < |s.nodes| && s.nodes[n] == NodeUp(SMALL) && p == Placement(n, "eu", false, Manual)
    requires ScheduledUsage(s, n, Cpu) <= 50 && ScheduledUsage(s, n, Memory) <= 64
    requires ScheduledUsage(s, n, Disk) <= 256 && ScheduledUsage(s, n, Slots) <= 1
    ensures PlacementIsPossible(s, 0, ServeResourcesFor(false), None, Some(n), p)
  {
    var c := CandidateFor(s, n);
    assert c in EligibleCandidates(s, 0);
    FitsMeans(c, ServeResourcesFor(false));
    OverflowMeans(c, ServeResourcesFor(false));
  }

  lemma OnlyCandidate(d: Deployment)
    requires Deliverable(CandidateOf([d], 0))
    ensures Reconciled([d], d.project, d.environment) == [d]
  {
    var cs := Candidates([d], d.project, d.environment);
    assert CandidateOf([d], 0) in cs;
    assert LastAmong(cs, CandidateOf([d], 0), Deliverable);
  }

  lemma Unfold(actions: seq<Action>, s: State, a: Action)
    requires Run(actions) == s
    ensures Run(actions + [a]) == Step(s, a)
  {
    RunExtends(actions, a);
  }

  lemma Follows(actions: seq<Action>, s: State, a: Action, s': State)
    requires Run(actions) == s && Step(s, a) == s'
    ensures Run(actions + [a]) == s'
  {
    Unfold(actions, s, a);
  }

  lemma NodeComesUp(s: State, n: nat)
    requires n < |s.nodes| && s.nodes[n] == Node(NodePending, false, true, true, false, None, "eu", SMALL)
    ensures Step(s, ANodeActivity(n, NodePending, true, true, true, 0)) == s.(nodes := s.nodes[n := NodeUp(SMALL)])
  {
  }

  lemma SiteIsCreated()
    ensures Step(State([], [NodeUp(SMALL)], [], [], []), ACreate(0, Production, false, None, Some(0), Some(ONNODE0), 0))
            == OneSite(Site(0, BuildPending, ServePending, Draft, None, Some(0), 256), [], [])
  {
    CanPlace(State([], [NodeUp(SMALL)], [], [], []), 0, ONNODE0);
  }

  lemma NodeIsUp()
    ensures Run([ACreateNode("eu", SMALL)] + [ANodeActivity(0, NodePending, true, true, true, 0)]) == State([], [NodeUp(SMALL)], [], [], [])
  {
    var none: seq<Action> := [];
    var one := [ACreateNode("eu", SMALL)];
    assert none + one == one;
    var s := State([], [Node(NodePending, false, true, true, false, None, "eu", SMALL)], [], [], []);
    assert Step(INITIAL, one[0]) == s;
    Follows(none, INITIAL, one[0], s);
    NodeComesUp(s, 0);
    Unfold(one, s, ANodeActivity(0, NodePending, true, true, true, 0));
  }

  lemma SiteIsBuilding()
    ensures Run(BUILDING_SITE) == OneSite(Site(0, Building, ServePending, Draft, Some(0), Some(0), 256), [], [])
  {
    NodeIsUp();
    var up := [ACreateNode("eu", SMALL)] + [ANodeActivity(0, NodePending, true, true, true, 0)];
    SiteIsCreated();
    Unfold(up, Run(up), ACreate(0, Production, false, None, Some(0), Some(ONNODE0), 0));
    SiteIsClaimed(up + [ACreate(0, Production, false, None, Some(0), Some(ONNODE0), 0)]);
  }

  lemma SiteIsClaimed(created: seq<Action>)
    requires Run(created) == OneSite(Site(0, BuildPending, ServePending, Draft, None, Some(0), 256), [], [])
    ensures Run(created + [AClaim(0, 0)] + [ABuildProgress(0, Claimed, Building)])
            == OneSite(Site(0, Building, ServePending, Draft, Some(0), Some(0), 256), [], [])
  {
    Unfold(created, Run(created), AClaim(0, 0));
    Unfold(created + [AClaim(0, 0)], OneSite(Site(0, Claimed, ServePending, Draft, Some(0), Some(0), 256), [], []), ABuildProgress(0, Claimed, Building));
  }

  const CANCELED := Site(0, BuildCanceled, Retired, Draft, Some(0), None, 256)

  lemma CancellationRetires()
    ensures Step(OneSite(Site(0, Building, ServePending, Draft, Some(0), Some(0), 256), [], []), AUnsuccessful(0, BuildCanceled))
            == OneSite(CANCELED, [], [])
  {
    var d := Site(0, BuildCanceled, ServePending, Draft, Some(0), Some(0), 256);
    var cs := Candidates([d], 0, Production);
    assert forall c :: c in cs ==> c == CandidateOf([d], 0);
    assert !IsDesired([d], 0, Production, 0);
    assert Reconciled([d], 0, Production) == [Unassigned(d)];
  }
}
