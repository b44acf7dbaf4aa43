/** What the transactions on nodes, deletion jobs, placements and artifacts answer and write. */
module NodeHandlers {
  import opened Basics
  import opened Lifecycle
  import opened Scheduler
  import opened Delivery
  import opened ControlPlane
  import opened Evacuation
  import opened Placements
  import opened Copies

  // --- Nodes -------------------------------------------------------------------------------------------

  /** A heartbeat or registration is refused only from a node that is not there or was disabled when it authenticated. It writes
      what the node says of itself and the time, and makes the node Active unless it was Draining by then. */
  lemma ActivityExactly(s: State, n: nat, seen: NodeStatus, serve: bool, build: bool, url: bool, now: int)
    ensures var r := NodeActivity(s, n, seen, serve, build, url, now);
            && (r.Ok? <==> n < |s.nodes| && seen != NodeDisabled)
            && (r.Err? ==> r == Err(Forbidden))
            && (r.Ok? ==>
                 var node := s.nodes[n];
                 r.value == s.(nodes := s.nodes[n := Node(if seen == NodeDraining then NodeDraining else NodeActive, node.deleted, serve, build, url,
                                                          Some(now), node.region, node.capacity)]))
  {
  }

  /** The sweep makes Offline exactly the Active nodes that were not heard of for longer than the limit. */
  lemma StaleExactly(s: State, now: int, limit: int)
    ensures var s' := MarkStaleOffline(s, now, limit);
            && s' == s.(nodes := s'.nodes) && |s'.nodes| == |s.nodes|
            && forall n: nat :: n < |s.nodes| ==>
                 var node := s.nodes[n];
                 s'.nodes[n] == if node.status == NodeActive && !node.deleted && (node.lastHeartbeat == None || now - node.lastHeartbeat.value > limit * 1000)
                                then node.(status := NodeOffline) else node
  {
  }

  /** A new node waits for its first registration. */
  lemma NewNode(s: State, region: string, capacity: NodeResources)
    ensures var s' := CreateNode(s, region, capacity);
            && s' == s.(nodes := s'.nodes) && |s'.nodes| == |s.nodes| + 1 && s'.nodes[..|s.nodes|] == s.nodes
            && var node := s'.nodes[|s.nodes|];
            && node.status == NodePending && !node.deleted && !node.hasBaseUrl && node.lastHeartbeat == None
            && node.region == region && node.capacity == capacity
  {
  }

  // --- Deletion jobs -----------------------------------------------------------------------------------

  /** Deletion is refused with NotFound for a node that is not there any more, and with Conflict for every other cause. */
  lemma EnqueueAnswers(s: State, n: nat, target: Option<nat>, now: int)
    ensures var r := Enqueue(s, n, target, now);
            && (r == Err(NotFound) <==> n >= |s.nodes| || s.nodes[n].deleted)
            && (r.Err? && n < |s.nodes| && !s.nodes[n].deleted ==> r == Err(Conflict))
  {
  }

  /** The job counts the deployments it lists and the builds that run on its node. */
  lemma EnqueueCounts(s: State, n: nat, target: Option<nat>, now: int, s': State) returns (j: nat)
    requires EvacuationInvariant(s) && Enqueue(s, n, target, now) == Ok(s')
    ensures j < |s'.jobs| && (j < |s.jobs| ==> s'.jobs[j] != s.jobs[j]) && s'.jobs[j].node == n
    ensures s'.jobs[j].total == |s'.jobs[j].rows| && s'.jobs[j].activeBuilds == Builds(s, n)
  {
    j := EnqueueLists(s, n, target, now, s');
    EnqueueKeeps(s, n, target, now);
    BuildsMeans(s, n);
  }

  /** A pass that fails marks the job failed with all its rows, and leaves its counts and everything else alone. */
  lemma AbortExactly(s: State, j: nat, s': State)
    requires j < |s.jobs| && s' == AbortJob(s, j)
    ensures s.jobs[j].status in {JobFailed, JobCompleted} ==> s' == s
    ensures s.jobs[j].status !in {JobFailed, JobCompleted} ==>
              && OnlyJob(s, s', j) && s'.jobs[j].status == JobFailed
              && s'.jobs[j].migrated == s.jobs[j].migrated && s'.jobs[j].activeBuilds == s.jobs[j].activeBuilds
              && forall i :: i in s'.jobs[j].rows ==> s'.jobs[j].rows[i] == RowFailed
  {
  }

  // --- Deployments on nodes ----------------------------------------------------------------------------

  /** A creation commits exactly on a placement the scheduler grants for what such a deployment takes: 50 millicores, 64 and 256
      megabytes for a static one, 200, 256 and 512 for a rendered one. */
  lemma CreationExactly(s: State, project: nat, environment: Environment, ssr: bool, region: Option<string>,
                        selected: Option<nat>, chosen: Option<Placement>, now: int)
    ensures var r := CreateDeployment(s, project, environment, ssr, region, selected, chosen, now);
            var size := if ssr then ServeResources(200, 256, 512) else ServeResources(50, 64, 256);
            && (r.Ok? <==> chosen.Some? && IsGranted(s, now, size, region, selected, chosen.value))
            && (r.Err? ==> r == Err(Unschedulable))
            && (r.Ok? ==>
                 var d := Deployment(project, environment, chosen.value.region, now, BuildPending, ServePending, Draft, None, None,
                                     Some(chosen.value.nodeId), size, chosen.value.overcommitted);
                 r.value == s.(deployments := s.deployments + [d]))
  {
    if chosen.Some? { PlacementExactly(s, now, ServeResourcesFor(ssr), region, selected, chosen.value); }
  }

  function OthersShare(s: State, n: nat, i: nat, k: nat): nat {
    if k == i then 0 else CarriedShare(s, n, Disk, k)
  }

  function OthersTerm(s: State, n: nat, i: nat): nat -> nat {
    (k: nat) => OthersShare(s, n, i, k)
  }

  /** The disk of the other deployments node `n` carries. */
  function OthersDisk(s: State, n: nat, i: nat): nat {
    Sum(|s.deployments|, OthersTerm(s, n, i))
  }

  lemma OwnShareOfDisk(s: State, n: nat, i: nat)
    requires i < |s.deployments|
    ensures Carried(s, n, Disk) == OthersDisk(s, n, i) + CarriedShare(s, n, Disk, i)
  {
    SumAt(|s.deployments|, CarriedTerm(s, n, Disk), OthersTerm(s, n, i), i);
  }

  /** The upload of an artifact is accepted exactly when its node serves and has the disk beside the others it carries. For a
      deployment whose build ended without success, or that is retired, and that its node does not carry any more, the query still
      deducts the old size. */
  lemma UploadAnswers(s: State, i: nat, disk: nat)
    requires i < |s.deployments|
    ensures var d := s.deployments[i];
            var r := UploadArtifact(s, i, disk);
            && (r.Ok? <==>
                 && d.serveNode.Some? && d.serveNode.value < |s.nodes|
                 && var node := s.nodes[d.serveNode.value];
                 && !node.deleted && node.serveEnabled
                 && var others := OthersDisk(s, d.serveNode.value, i);
                 && (if Occupying(d) then others else if others >= d.resources.disk then others - d.resources.disk else 0) + disk <= node.capacity.disk)
            && (r.Err? ==> r == Err(Conflict))
            && (r.Ok? ==> r.value == s.(deployments := s.deployments[i := d.(resources := ServeResources(d.resources.cpu, d.resources.memory, disk))]))
  {
    var d := s.deployments[i];
    if d.serveNode.Some? {
      AssignedIsCarried(s, d.serveNode.value, Disk);
      OwnShareOfDisk(s, d.serveNode.value, i);
    }
  }
}
