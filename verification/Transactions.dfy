/** The control plane's transactions as they update their tables, row by row. */
module Transactions {
  import opened Basics
  import opened Lifecycle
  import opened Scheduler
  import opened Delivery
  import opened ControlPlane
  import Assignments
  import Capacity
  import Evacuation
  import NodeSafety
  import ReleaseInvariants

  class Database {
    var deployments: seq<Deployment>
    var nodes: seq<Node>
    var jobs: seq<Job>
    var releases: seq<Release>
    var history: seq<Entry>
    /** The committed transactions, in commit order. */
    ghost var log: seq<Action>

    ghost function Snapshot(): State
      reads this
    {
      State(deployments, nodes, jobs, releases, history)
    }

    ghost predicate Valid()
      reads this
    {
      Snapshot() == Run(log)
    }

    /** A step inside a transaction: it does what the specification does, or fails as it fails; the tables
        after a failure are discarded by the rollback. */
    ghost predicate Does(r: Result<(), Failure>, spec: Result<State, Failure>)
      reads this
    {
      match spec
      case Ok(s) => r.Ok? && Snapshot() == s
      case Err(e) => r == Err(e)
    }

    constructor ()
      ensures Valid() && log == []
    {
      deployments, nodes, jobs, releases, history, log := [], [], [], [], [], [];
    }

    // --- Inside a transaction: deployments.rs and delivery.rs ------------------------------

    method TransitionRelease(i: nat, to: ReleaseStatus) returns (r: Result<(), Failure>)
      requires i < |deployments|
      modifies this`deployments, this`history
      ensures Does(r, ChangeRelease(old(Snapshot()), i, to))
      ensures |deployments| == old(|deployments|)
    {
      var d := deployments[i];
      if !CanTransitionRelease(d.release, to) { return Err(InvalidState(InvalidReleaseTransition)); }
      var ready := ValidateReleaseReadiness(d.release, to, d.build, d.serve);
      if ready.Err? { return Err(InvalidState(ready.error)); }
      deployments := deployments[i := d.(release := to)];
      history := history + [ReleaseChanged(i, to)];
      return Ok(());
    }

    method SelectEnvironment(project: nat, environment: Environment) returns (candidates: seq<DeliveryCandidate>)
      ensures candidates == Candidates(deployments, project, environment)
      ensures forall a, b :: 0 <= a < b < |candidates| ==> candidates[a].id < candidates[b].id
    {
      candidates := [];
      for n := 0 to |deployments|
        invariant candidates == CandidatesBelow(deployments, n, project, environment)
        invariant forall a :: 0 <= a < |candidates| ==> candidates[a].id < n
        invariant forall a, b :: 0 <= a < b < |candidates| ==> candidates[a].id < candidates[b].id
      {
        if deployments[n].project == project && deployments[n].environment == environment {
          candidates := candidates + [CandidateOf(deployments, n)];
        }
      }
    }

    /** The body of the reconciliation loop; the transition it asks for is never refused. */
    method RetireUnlessDesired(i: nat, desired: set<nat>)
      requires i < |deployments|
      modifies this`deployments
      ensures deployments == old(deployments)[i := Settled(old(deployments[i]), i, desired)]
    {
      var item := deployments[i];
      if InProgress(item.build) || i in desired { return; }
      if item.serveNode.None? && item.serve.Retired? { return; }
      if !item.serve.Retired? {
        var moved := TransitionServe(item, Retired);
        assert moved.Ok?;
        item := moved.value;
      }
      deployments := deployments[i := item.(serveNode := None)];
    }

    static function Settled(d: Deployment, i: nat, desired: set<nat>): Deployment {
      if InProgress(d.build) || i in desired then d else Unassigned(d)
    }

    /** Retires every finished deployment of the environment that is not desired. */
    method ReconcileEnvironment(project: nat, environment: Environment)
      modifies this`deployments
      ensures Snapshot() == Reconcile(old(Snapshot()), project, environment)
    {
      ghost var before := deployments;
      var items := SelectEnvironment(project, environment);
      var desired := DesiredDeliveryIds(items);
      ItemsSettle(before, items, desired, project, environment);
      RetireItems(items, desired);
      EnvironmentSettled(before, items, desired, deployments, project, environment);
    }

    /** The loop over the deployments of the environment. */
    method RetireItems(items: seq<DeliveryCandidate>, desired: set<nat>)
      requires forall a :: 0 <= a < |items| ==> items[a].id < |deployments|
      requires forall a, b :: 0 <= a < b < |items| ==> items[a].id < items[b].id
      modifies this`deployments
      ensures |deployments| == |old(deployments)|
      ensures forall a :: 0 <= a < |items| ==> deployments[items[a].id] == Settled(old(deployments)[items[a].id], items[a].id, desired)
      ensures forall i: nat :: i < |deployments| && (forall a :: 0 <= a < |items| ==> items[a].id != i) ==> deployments[i] == old(deployments)[i]
    {
      ghost var before := deployments;
      for k := 0 to |items|
        invariant |deployments| == |before|
        invariant forall a :: k <= a < |items| ==> deployments[items[a].id] == before[items[a].id]
        invariant forall a :: 0 <= a < k ==> deployments[items[a].id] == Settled(before[items[a].id], items[a].id, desired)
        invariant forall i: nat :: i < |before| && (forall a :: 0 <= a < |items| ==> items[a].id != i) ==> deployments[i] == before[i]
      {
        RetireUnlessDesired(items[k].id, desired);
      }
    }

    static lemma ItemsSettle(before: seq<Deployment>, items: seq<DeliveryCandidate>, desired: set<nat>, project: nat, environment: Environment)
      requires items == Candidates(before, project, environment) && desired == DesiredIds(items)
      ensures forall a :: 0 <= a < |items| ==> items[a].id < |before| && InEnvironment(before[items[a].id], project, environment)
    {
      forall a | 0 <= a < |items| ensures items[a].id < |before| && InEnvironment(before[items[a].id], project, environment) {
        assert items[a] in items;
      }
    }

    static lemma EnvironmentSettled(before: seq<Deployment>, items: seq<DeliveryCandidate>, desired: set<nat>, after: seq<Deployment>,
                                    project: nat, environment: Environment)
      requires items == Candidates(before, project, environment) && desired == DesiredIds(items) && |after| == |before|
      requires forall a :: 0 <= a < |items| ==>
                 && items[a].id < |before|
                 && after[items[a].id] == Settled(before[items[a].id], items[a].id, desired)
      requires forall i: nat :: i < |before| && !InEnvironment(before[i], project, environment) ==> after[i] == before[i]
      ensures after == Reconciled(before, project, environment)
    {
      forall i: nat | i < |before| && InEnvironment(before[i], project, environment)
        ensures after[i] == Settled(before[i], i, desired)
        ensures i in desired <==> IsDesired(before, project, environment, i)
      {
        assert CandidateOf(before, i) in items;
        var a :| 0 <= a < |items| && items[a] == CandidateOf(before, i);
        forall c | c in items && c.id == i ensures c == CandidateOf(before, i) {}
      }
    }

    method FindActiveDeployment(i: nat) returns (found: Option<nat>)
      requires i < |deployments|
      ensures found == FindActive(deployments, |deployments|, i)
    {
      var k := |deployments|;
      while k > 0
        invariant 0 <= k <= |deployments|
        invariant FindActive(deployments, k, i) == FindActive(deployments, |deployments|, i)
      {
        var d := deployments[k - 1];
        if k - 1 != i && d.release.Active? && SameEnvironment(d, deployments[i]) { return Some(k - 1); }
        k := k - 1;
      }
      found := None;
    }

    method Activate(i: nat, reason: ReleaseReason) returns (r: Result<(), Failure>)
      requires i < |deployments|
      modifies this`deployments, this`history, this`releases
      ensures Does(r, ControlPlane.Activate(old(Snapshot()), i, reason))
      ensures |deployments| == old(|deployments|)
    {
      var d := deployments[i];
      var ready := ValidateReleaseReadiness(d.release, Active, d.build, d.serve);
      if ready.Err? { return Err(InvalidState(ready.error)); }
      var previous := FindActiveDeployment(i);
      if previous.Some? {
        r := TransitionRelease(previous.value, Approved);
        if r.Err? { return; }
      }
      r := TransitionRelease(i, Active);
      if r.Err? { return; }
      releases := releases + [Release(d.project, d.environment, i, reason, previous)];
    }

    method ReleaseIsPending(project: nat, environment: Environment) returns (pending: bool)
      ensures pending <==> exists k: nat :: k < |deployments| && InEnvironment(deployments[k], project, environment)
                                            && deployments[k].pending.Some?
    {
      for k := 0 to |deployments|
        invariant forall i: nat :: i < k && InEnvironment(deployments[i], project, environment) ==> deployments[i].pending.None?
      {
        if InEnvironment(deployments[k], project, environment) && deployments[k].pending.Some? { return true; }
      }
      pending := false;
    }

    /** No eligible node of the region can take the deployment, not even in an overflow slot. */
    static ghost predicate NoRoom(s: State, now: int, requested: ServeResources, region: Option<string>) {
      forall c :: c in InRegion(EligibleCandidates(s, now), region) ==> !CanOverflow(c, requested)
    }

    /** The scheduler's answer over the current tables. */
    method PlaceDeployment(requested: ServeResources, region: Option<string>, selected: Option<nat>, random: nat, now: int)
      returns (chosen: Option<Placement>)
      ensures chosen.Some? ==> PlacementIsPossible(Snapshot(), now, requested, region, selected, chosen.value)
      ensures chosen.None? && selected.None? ==> NoRoom(Snapshot(), now, requested, region)
    {
      var tables := State(deployments, nodes, jobs, releases, history);
      var r := ChooseCandidateInRegion(EligibleCandidates(tables, now), requested, region, selected, random);
      chosen := if r.Ok? then Some(r.value) else None;
    }

    method RequestRelease(i: nat, reason: ReleaseReason, random: nat, now: int)
      returns (r: Result<(), Failure>, chosen: Option<Placement>)
      requires i < |deployments|
      modifies this`deployments, this`history, this`releases
      ensures Does(r, ControlPlane.RequestRelease(old(Snapshot()), i, reason, chosen, now))
      ensures r == Err(Unschedulable) ==>
                NoRoom(old(Snapshot()), now, old(deployments[i].resources), Some(old(deployments[i].region)))
    {
      var target := deployments[i];
      chosen := None;
      var pending := ReleaseIsPending(target.project, target.environment);
      assert pending <==> PendingElsewhere(deployments, i);
      if pending { return Err(ReleaseAlreadyPending), None; }
      if target.serveNode.Some? && target.serve.ServeReady? {
        r := ActivateNow(i, reason);
        return;
      }
      r, chosen := QueueForServing(i, reason, random, now);
    }

    method ActivateNow(i: nat, reason: ReleaseReason) returns (r: Result<(), Failure>)
      requires i < |deployments|
      modifies this`deployments, this`history, this`releases
      ensures Does(r, ActivateAndReconcile(old(Snapshot()), i, reason))
      ensures r.Err? ==> r.error.InvalidState?
    {
      r := Activate(i, reason);
      if r.Err? { return; }
      ReconcileEnvironment(deployments[i].project, deployments[i].environment);
    }

    method QueueForServing(i: nat, reason: ReleaseReason, random: nat, now: int)
      returns (r: Result<(), Failure>, chosen: Option<Placement>)
      requires i < |deployments|
      modifies this`deployments
      ensures Does(r, QueueRelease(old(Snapshot()), i, reason, chosen, now))
      ensures r.Err? ==> r.error.Unschedulable? && NoRoom(old(Snapshot()), now, old(deployments[i].resources), Some(old(deployments[i].region)))
    {
      var target := deployments[i];
      chosen := None;
      if target.serveNode.None? || target.serve.Retired? {
        chosen := PlaceDeployment(target.resources, Some(target.region), None, random, now);
        if chosen.None? { return Err(Unschedulable), None; }
        target := target.(serveNode := Some(chosen.value.nodeId), overcommitted := chosen.value.overcommitted, serve := ServePending);
      }
      QueueSync(i, target, reason);
      r := Ok(());
    }

    /** The release waits for the deployment to be served. */
    method QueueSync(i: nat, target: Deployment, reason: ReleaseReason)
      requires i < |deployments|
      modifies this`deployments
      ensures Snapshot() == ReconcileAround(SetRow(old(Snapshot()), i, target.(pending := Some(reason))), i)
    {
      deployments := deployments[i := target.(pending := Some(reason))];
      ReconcileEnvironment(target.project, target.environment);
    }

    method CompletePendingRelease(i: nat) returns (r: Result<(), Failure>)
      requires i < |deployments|
      modifies this`deployments, this`history, this`releases
      ensures Does(r, ControlPlane.CompletePendingRelease(old(Snapshot()), i))
      ensures |deployments| == old(|deployments|)
    {
      var target := deployments[i];
      if target.pending.None? || !target.serve.ServeReady? { return Ok(()); }
      r := Activate(i, target.pending.value);
      if r.Err? { return; }
      deployments := deployments[i := deployments[i].(pending := None)];
      ReconcileEnvironment(deployments[i].project, deployments[i].environment);
    }

    method CompleteServeReady(i: nat, mode: ReviewMode) returns (r: Result<(), Failure>)
      requires i < |deployments|
      modifies this`deployments, this`history, this`releases
      ensures Does(r, ControlPlane.CompleteServeReady(old(Snapshot()), i, mode))
    {
      var d := deployments[i];
      r := Ok(());
      if d.pending.Some? {
        r := CompletePendingRelease(i);
      } else if mode.AutoReview? && d.release.Draft? {
        r := Activate(i, Auto);
      }
      if r.Err? { return; }
      ReconcileEnvironment(deployments[i].project, deployments[i].environment);
    }

    method RemovePublicationIn(i: nat, kind: PublicationRemovalKind) returns (r: Result<(), Failure>)
      requires i < |deployments|
      modifies this`deployments, this`history
      ensures Does(r, RemovePublication(old(Snapshot()), i, kind))
    {
      var target := deployments[i];
      if target.release == PublicationRemovalTarget(kind) && target.serve.Retired? { return Ok(()); }
      r := TransitionRelease(i, PublicationRemovalTarget(kind));
      if r.Err? { return; }
      var removed := deployments[i];
      if !removed.serve.Retired? {
        var moved := TransitionServe(removed, Retired);
        assert moved.Ok?;
        removed := moved.value;
      }
      deployments := deployments[i := removed.(serveNode := None, pending := None)];
      ReconcileEnvironment(target.project, target.environment);
    }

    method FinalizeReadyIn(i: nat, mode: ReviewMode) returns (r: Result<(), Failure>)
      requires i < |deployments|
      modifies this`deployments, this`history
      ensures Does(r, FinalizeReady(old(Snapshot()), i, mode))
    {
      if !deployments[i].build.BuildReady? {
        var built := TransitionBuild(deployments[i], BuildReady);
        if built.Err? { return Err(InvalidState(built.error)); }
        deployments := deployments[i := built.value];
      } else {
        assert deployments[i := deployments[i]] == deployments;
      }
      r := Ok(());
      if mode.ManualReview? && deployments[i].release.Draft? {
        r := TransitionRelease(i, PendingReview);
        if r.Err? { return; }
      }
      ReconcileEnvironment(deployments[i].project, deployments[i].environment);
    }

    method UnsuccessfulBuildIn(i: nat, to: BuildStatus) returns (r: Result<(), Failure>)
      requires i < |deployments|
      modifies this`deployments
      ensures Does(r, TransitionUnsuccessfulBuild(old(Snapshot()), i, to))
    {
      if !(to.BuildFailed? || to.BuildCanceled?) { return Err(Conflict); }
      var stopped := TransitionBuild(deployments[i], to);
      if stopped.Err? { return Err(InvalidState(stopped.error)); }
      deployments := deployments[i := stopped.value];
      ReconcileEnvironment(deployments[i].project, deployments[i].environment);
      r := Ok(());
    }

    // --- Inside a transaction: the release handlers and the serve report ------------------------

    /** `seenReady` and `seen` are from the row that the handler loaded before its transaction. */
    method ActivateIn(i: nat, seenReady: bool, seen: ReleaseStatus, reason: ReleaseReason, mode: ReviewMode, random: nat, now: int)
      returns (r: Result<(), Failure>, chosen: Option<Placement>)
      requires i < |deployments|
      modifies this`deployments, this`history, this`releases
      ensures Does(r, ActivateDeployment(old(Snapshot()), i, seenReady, seen, reason, mode, chosen, now))
    {
      if !seenReady || seen.Active? || seen.Rejected? || seen.PendingReview? { return Err(Conflict), None; }
      if seen.Draft? && mode.ManualReview? {
        chosen := None;
        r := TransitionRelease(i, PendingReview);
      } else {
        r, chosen := RequestRelease(i, reason, random, now);
      }
    }

    method ResolveReviewIn(i: nat, approved: bool, random: nat, now: int) returns (r: Result<(), Failure>, chosen: Option<Placement>)
      requires i < |deployments|
      modifies this`deployments, this`history, this`releases
      ensures Does(r, ResolveReview(old(Snapshot()), i, approved, chosen, now))
    {
      chosen := None;
      if !ReviewableArtifact(deployments[i]) || !deployments[i].release.PendingReview? { return Err(Conflict), None; }
      r := TransitionRelease(i, if approved then Approved else Rejected);
      if r.Err? || !approved { return; }
      history := history + [ReviewApproved(i)];
      r, chosen := RequestRelease(i, Promote, random, now);
    }

    method RepublishIn(i: nat, mode: ReviewMode, random: nat, now: int) returns (r: Result<(), Failure>, chosen: Option<Placement>)
      requires i < |deployments|
      modifies this`deployments, this`history, this`releases
      ensures Does(r, Republish(old(Snapshot()), i, mode, chosen, now))
    {
      var d := deployments[i];
      chosen := None;
      if !ReviewableArtifact(d) || d.release.PendingReview? || d.release.Active? { return Err(Conflict), None; }
      if mode.ManualReview? && !d.release.Approved? {
        r := TransitionRelease(i, PendingReview);
        return;
      }
      if d.release.Rejected? {
        r := TransitionRelease(i, PendingReview);
        if r.Err? { return; }
        r := TransitionRelease(i, Approved);
        if r.Err? { return; }
      }
      r, chosen := RequestRelease(i, Promote, random, now);
    }

    /** The migration row that makes node `n` a shadow target of deployment `i`. */
    method FindShadowRow(i: nat, n: nat) returns (job: Option<nat>)
      ensures job.Some? ==> job.value < |jobs| && ShadowRow(jobs[job.value], n, i)
      ensures job.None? ==> forall j: nat :: j < |jobs| ==> !ShadowRow(jobs[j], n, i)
    {
      for j := 0 to |jobs|
        invariant forall k: nat :: k < j ==> !ShadowRow(jobs[k], n, i)
      {
        if ShadowRow(jobs[j], n, i) { return Some(j); }
      }
      job := None;
    }

    method ReportServeStatusIn(i: nat, n: nat, capable: bool, status: ServeStatus, mode: ReviewMode) returns (r: Result<(), Failure>, job: Option<nat>)
      requires i < |deployments|
      modifies this`deployments, this`history, this`releases, this`jobs
      ensures Does(r, ReportServeStatus(old(Snapshot()), i, n, capable, status, job, mode))
    {
      var d := deployments[i];
      if n >= |nodes| || !capable { return Err(Forbidden), None; }
      if !(status.Syncing? || status.ServeReady? || status.ServeFailed?) { return Err(Conflict), None; }
      job := FindShadowRow(i, n);
      if d.serveNode != Some(n) && job.Some? {
        var shadow := jobs[job.value];
        jobs := jobs[job.value := shadow.(rows := shadow.rows[i := RowFor(status)])];
        return Ok(()), job;
      }
      if d.serveNode != Some(n) { return Err(Forbidden), job; }
      if !d.build.BuildReady? { return Err(Conflict), job; }
      var served := TransitionServe(d, status);
      if served.Err? { return Err(InvalidState(served.error)), job; }
      deployments := deployments[i := served.value];
      r := Ok(());
      if status.ServeReady? { r := CompleteServeReady(i, mode); }
    }

    // --- Inside a transaction: node deletion -----------------------------------------------------

    method FindActiveJob(n: nat) returns (found: Option<nat>)
      ensures found == ActiveJob(jobs, |jobs|, n)
    {
      var k := |jobs|;
      while k > 0
        invariant 0 <= k <= |jobs|
        invariant ActiveJob(jobs, k, n) == ActiveJob(jobs, |jobs|, n)
      {
        if jobs[k - 1].node == n && !jobs[k - 1].status.JobCompleted? { return Some(k - 1); }
        k := k - 1;
      }
      found := None;
    }

    method AssignedDeployments(n: nat) returns (ids: seq<nat>)
      ensures (set i | i in ids) == AssignedIds(deployments, n)
      ensures |ids| == |AssignedIds(deployments, n)|
    {
      ids := [];
      ghost var found: set<nat> := {};
      for k := 0 to |deployments|
        invariant forall i :: i in ids <==> i in found
        invariant forall i: nat :: i in found <==> i < k && LiveOn(deployments[i], n)
        invariant |found| == |ids|
      {
        if deployments[k].serveNode == Some(n) && Live(deployments[k]) {
          ids := ids + [k];
          found := found + {k};
        }
      }
      assert found == AssignedIds(deployments, n);
    }

    method CountActiveBuilds(n: nat) returns (count: nat)
      ensures count == ActiveBuildCount(deployments, n)
    {
      count := 0;
      ghost var found: set<nat> := {};
      for k := 0 to |deployments|
        invariant found == set i: nat | i < k && BuildingOn(deployments[i], n)
        invariant count == |found|
      {
        var d := deployments[k];
        if d.buildNode == Some(n) && (d.build.Claimed? || d.build.Queued? || d.build.Building?) {
          count := count + 1;
          found := found + {k};
        }
      }
    }

    /** The checked sum of one resource over the deployments of node `n`. */
    method RequestedOn(n: nat, m: Measure) returns (total: Option<nat>)
      ensures total == RequestedTotal(deployments, |deployments|, n, m)
    {
      total := Some(0);
      for k := 0 to |deployments|
        invariant total == RequestedTotal(deployments, k, n, m)
      {
        if LiveOn(deployments[k], n) {
          if total.Some? && total.value + Weight(m, deployments[k]) <= U64_MAX {
            total := Some(total.value + Weight(m, deployments[k]));
          } else {
            total := None;
          }
        }
      }
    }

    method CanHost(c: Candidate, n: nat) returns (fits: bool)
      ensures fits <==> CandidateCanHost(c, deployments, n)
    {
      var cpu := RequestedOn(n, Cpu);
      var memory := RequestedOn(n, Memory);
      var disk := RequestedOn(n, Disk);
      var slots := RequestedOn(n, Slots);
      fits := RoomFor(c.usage.cpu, cpu, c.capacity.cpu) && RoomFor(c.usage.memory, memory, c.capacity.memory)
              && RoomFor(c.usage.disk, disk, c.capacity.disk) && RoomFor(c.usage.deployments, slots, c.capacity.maxDeployments);
    }

    /** Looks for the target among the eligible candidates other than the source that have room. */
    method FindEligibleTarget(n: nat, target: nat, now: int) returns (found: bool)
      ensures found <==> IsEligibleTarget(Snapshot(), n, target, now)
    {
      var tables := State(deployments, nodes, jobs, releases, history);
      var candidates := EligibleCandidates(tables, now);
      found := false;
      for k := 0 to |candidates|
        invariant found <==> exists a :: 0 <= a < k && candidates[a].nodeId == target && target != n
                                         && CandidateCanHost(candidates[a], deployments, n)
      {
        if candidates[k].nodeId != n {
          var fits := CanHost(candidates[k], n);
          if fits && candidates[k].nodeId == target { found := true; }
        }
      }
      ListedMeansEligible(tables, n, target, now);
    }

    static lemma ListedMeansEligible(s: State, n: nat, target: nat, now: int)
      ensures IsEligibleTarget(s, n, target, now) <==>
              var cs := EligibleCandidates(s, now);
              exists a :: 0 <= a < |cs| && cs[a].nodeId == target && target != n && CandidateCanHost(cs[a], s.deployments, n)
    {
      var cs := EligibleCandidates(s, now);
      if IsEligibleTarget(s, n, target, now) {
        assert CandidateFor(s, target) in cs;
        var a :| 0 <= a < |cs| && cs[a] == CandidateFor(s, target);
      }
      forall a | 0 <= a < |cs| ensures cs[a].nodeId < |s.nodes| && cs[a] == CandidateFor(s, cs[a].nodeId) && IsEligible(s.nodes[cs[a].nodeId], now) {
        assert cs[a] in cs;
      }
    }

    /** One pending row for each listed deployment, when there is a target to copy them to. */
    static method MigrationRows(ids: seq<nat>, target: Option<nat>) returns (rows: map<nat, RowStatus>)
      ensures target.None? ==> rows == map[]
      ensures target.Some? ==> rows.Keys == (set i | i in ids) && forall i :: i in rows ==> rows[i].RowPending?
    {
      rows := map[];
      if target.Some? {
        for k := 0 to |ids|
          invariant forall i :: i in rows <==> i in ids[..k]
          invariant forall i :: i in rows ==> rows[i].RowPending?
        {
          assert ids[..k + 1] == ids[..k] + [ids[k]];
          rows := rows[ids[k] := RowPending];
        }
        assert ids[..|ids|] == ids;
      }
    }

    method EnqueueIn(n: nat, target: Option<nat>, now: int) returns (r: Result<(), Failure>)
      modifies this`jobs, this`nodes
      ensures Does(r, Enqueue(old(Snapshot()), n, target, now))
    {
      if n >= |nodes| || nodes[n].deleted { return Err(NotFound); }
      var onNode := AssignedDeployments(n);
      assert onNode == [] <==> AssignedIds(deployments, n) == {};
      if onNode != [] {
        if target.None? { return Err(Conflict); }
        var eligible := FindEligibleTarget(n, target.value, now);
        if !eligible { return Err(Conflict); }
      }
      if target.Some? && (target.value == n || target.value >= |nodes|) { return Err(Conflict); }
      var existing := FindActiveJob(n);
      if existing.Some? && !jobs[existing.value].status.JobFailed? { return Err(Conflict); }
      WriteJob(n, target, onNode, existing);
      nodes := nodes[n := nodes[n].(status := NodeDraining)];
      r := Ok(());
    }

    /** Reopens the failed job or adds one, with its migration rows. */
    method WriteJob(n: nat, target: Option<nat>, onNode: seq<nat>, existing: Option<nat>)
      requires (set i | i in onNode) == AssignedIds(deployments, n) && |onNode| == |AssignedIds(deployments, n)|
      requires existing.Some? ==> existing.value < |jobs|
      modifies this`jobs
      ensures jobs == if existing.Some? then old(jobs)[existing.value := NewJob(old(Snapshot()), n, target)]
                      else old(jobs) + [NewJob(old(Snapshot()), n, target)]
    {
      var activeBuilds := CountActiveBuilds(n);
      var rows := MigrationRows(onNode, target);
      assert rows == NewJob(Snapshot(), n, target).rows;
      var job := Job(n, target, JobQueued, |onNode|, 0, activeBuilds, rows);
      if existing.Some? {
        jobs := jobs[existing.value := job];
      } else {
        jobs := jobs + [job];
      }
    }

    /** Writes the outcome of a pass to the job row. */
    method UpdateJobPhase(j: nat, status: JobStatus, ready: nat, activeBuilds: nat)
      requires j < |jobs|
      modifies this`jobs
      ensures jobs == old(jobs)[j := old(jobs[j]).(status := status, migrated := ready, activeBuilds := activeBuilds)]
    {
      jobs := jobs[j := jobs[j].(status := status, migrated := ready, activeBuilds := activeBuilds)];
    }

    /** Every row of the job that has not failed yet fails, and then the job does. */
    method FailJob(j: nat, ready: nat, activeBuilds: nat)
      requires j < |jobs|
      modifies this`jobs
      ensures jobs == old(jobs)[j := Failed(old(jobs[j]), ready, activeBuilds)]
    {
      ghost var before := jobs;
      var open := jobs[j].rows.Keys;
      while open != {}
        invariant open <= before[j].rows.Keys && |jobs| == |before|
        invariant jobs == before[j := before[j].(rows := jobs[j].rows)] && jobs[j].rows.Keys == before[j].rows.Keys
        invariant forall i :: i in jobs[j].rows ==> i in open || jobs[j].rows[i].RowFailed?
        decreases |open|
      {
        var i :| i in open;
        open := open - {i};
        if !jobs[j].rows[i].RowFailed? {
          jobs := jobs[j := jobs[j].(rows := jobs[j].rows[i := RowFailed])];
        }
      }
      assert jobs[j].rows == Failed(before[j], ready, activeBuilds).rows;
      UpdateJobPhase(j, JobFailed, ready, activeBuilds);
      assert jobs[j] == Failed(before[j], ready, activeBuilds);
      assert jobs == before[j := jobs[j]];
    }

    static method CountRows(rows: map<nat, RowStatus>, status: RowStatus) returns (count: nat)
      ensures count == |RowsWith(rows, status)|
    {
      count := 0;
      var open := rows.Keys;
      ghost var found: set<nat> := {};
      assert RowsWith(rows, status) <= rows.Keys;
      while open != {}
        invariant open <= rows.Keys
        invariant found == RowsWith(rows, status) - open
        invariant count == |found|
        decreases |open|
      {
        var i :| i in open;
        open := open - {i};
        assert i in RowsWith(rows, status) <==> rows[i] == status;
        if rows[i] == status {
          count := count + 1;
          found := found + {i};
        }
      }
    }

    method TargetAvailable(j: nat, now: int) returns (available: bool)
      requires j < |jobs|
      ensures available <==> TargetStillAvailable(Snapshot(), jobs[j], now)
    {
      var job := jobs[j];
      if job.target.None? { return job.rows == map[]; }
      if job.target.value >= |nodes| { return false; }
      var node := nodes[job.target.value];
      available := node.serveEnabled && node.hasBaseUrl && node.status.NodeActive? && node.lastHeartbeat.Some?
                   && WholeSeconds(now - node.lastHeartbeat.value) <= 90;
    }

    /** Marks the rows whose deployment needs no copy as ready and those whose artifact is unusable as failed. */
    method SettleRows(j: nat, invalidArtifacts: set<nat>)
      requires j < |jobs|
      modifies this`jobs
      ensures jobs == old(jobs)[j := old(jobs[j]).(rows := SettledRows(old(jobs[j]), deployments, invalidArtifacts))]
    {
      ghost var before := jobs;
      ghost var all := before[j].rows;
      var migrations := jobs[j].rows;
      var open := migrations.Keys;
      while open != {}
        invariant open <= all.Keys && |jobs| == |before|
        invariant jobs == before[j := before[j].(rows := jobs[j].rows)] && jobs[j].rows.Keys == all.Keys
        invariant forall i :: i in all ==>
          jobs[j].rows[i] == if i in open then all[i] else SettledRows(before[j], deployments, invalidArtifacts)[i]
        decreases |open|
      {
        var i :| i in open;
        open := open - {i};
        var row := migrations[i];
        if !row.RowReady? {
          if i >= |deployments| || !Live(deployments[i]) {
            jobs := jobs[j := jobs[j].(rows := jobs[j].rows[i := RowReady])];
          } else if deployments[i].build.BuildReady? && i in invalidArtifacts {
            jobs := jobs[j := jobs[j].(rows := jobs[j].rows[i := RowFailed])];
          }
        }
      }
      assert jobs[j].rows == SettledRows(before[j], deployments, invalidArtifacts);
    }

    /** The rows of the bulk route update: live, still on the source and with a migration row. */
    static ghost function Switchable(ds: seq<Deployment>, job: Job): set<nat> {
      set i: nat | i < |ds| && i in job.rows && LiveOn(ds[i], job.node)
    }

    /** The bulk route update, row by row: exactly those rows move to the target, within its limits, and they are
        counted; when the rows cover the source, it is empty then. */
    method SwitchReadyRoutes(j: nat) returns (updated: nat)
      requires j < |jobs|
      modifies this`deployments
      ensures deployments == Switched(old(deployments), jobs[j])
      ensures updated == if jobs[j].target.None? then 0 else |Switchable(old(deployments), jobs[j])|
      ensures jobs[j].target.Some? && jobs[j].target.value != jobs[j].node && Evacuation.Covered(old(deployments), jobs[j])
              ==> Evacuation.Vacated(deployments, jobs[j].node)
    {
      ghost var before := deployments;
      updated := 0;
      if jobs[j].target.None? {
        assert Switched(before, jobs[j]) == before;
      } else {
        updated := MoveRows(jobs[j].rows.Keys, jobs[j].node, jobs[j].target);
        assert deployments == Switched(before, jobs[j]);
        assert Switchable(before, jobs[j]) == set i: nat | i < |before| && i in jobs[j].rows.Keys && LiveOn(before[i], jobs[j].node);
      }
      SwitchEmpties(before, jobs[j]);
    }

    static lemma SwitchEmpties(before: seq<Deployment>, job: Job)
      ensures job.target.Some? && job.target.value != job.node && Evacuation.Covered(before, job)
              ==> Evacuation.Vacated(Switched(before, job), job.node)
    {
    }

    static function MovedRow(d: Deployment, listed: bool, node: nat, target: Option<nat>): Deployment {
      if listed && LiveOn(d, node) then d.(serveNode := target, overcommitted := false) else d
    }

    method MoveRows(ids: set<nat>, node: nat, target: Option<nat>) returns (updated: nat)
      modifies this`deployments
      ensures |deployments| == |old(deployments)|
      ensures forall i: nat :: i < |deployments| ==> deployments[i] == MovedRow(old(deployments)[i], i in ids, node, target)
      ensures updated == |set i: nat | i < |old(deployments)| && i in ids && LiveOn(old(deployments)[i], node)|
    {
      ghost var before := deployments;
      ghost var moved: set<nat> := {};
      updated := 0;
      for k := 0 to |deployments|
        invariant |deployments| == |before|
        invariant forall i: nat :: k <= i < |before| ==> deployments[i] == before[i]
        invariant forall i: nat :: i < k ==> deployments[i] == MovedRow(before[i], i in ids, node, target)
        invariant moved == set i: nat | i < k && i in ids && LiveOn(before[i], node)
        invariant updated == |moved|
      {
        if k in ids && LiveOn(deployments[k], node) {
          deployments := deployments[k := deployments[k].(serveNode := target, overcommitted := false)];
          updated := updated + 1;
          moved := moved + {k};
        }
      }
    }

    method ProcessJobIn(j: nat, now: int, invalidArtifacts: set<nat>)
      requires j < |jobs|
      modifies this`deployments, this`jobs, this`nodes
      ensures Snapshot() == ProcessJob(old(Snapshot()), j, now, invalidArtifacts)
    {
      var job := jobs[j];
      if job.status.JobFailed? || job.status.JobCompleted? { return; }
      if job.migrated < job.total {
        var available := TargetAvailable(j, now);
        if !available {
          var currentReady := CountRows(job.rows, RowReady);
          var builds := CountActiveBuilds(job.node);
          FailJob(j, currentReady, builds);
          return;
        }
      }
      var unsettled := jobs;
      SettleRows(j, invalidArtifacts);
      FinishPass(j, unsettled, old(Snapshot()), now, invalidArtifacts);
    }

    /** The second half of a pass, from the rows as they have been settled. */
    method FinishPass(j: nat, unsettled: seq<Job>, ghost before: State, now: int, invalidArtifacts: set<nat>)
      requires j < |before.jobs| && Evacuation.Running(before.jobs[j]) && unsettled == before.jobs
      requires before.jobs[j].migrated < before.jobs[j].total ==> TargetStillAvailable(before, before.jobs[j], now)
      requires Snapshot() == before.(jobs := before.jobs[j := before.jobs[j].(rows :=
                 SettledRows(before.jobs[j], before.deployments, invalidArtifacts))])
      modifies this`deployments, this`jobs, this`nodes
      ensures Snapshot() == ProcessJob(before, j, now, invalidArtifacts)
    {
      var job := jobs[j];
      var ready := CountRows(job.rows, RowReady);
      var failed := CountRows(job.rows, RowFailed);
      var activeBuilds := CountActiveBuilds(job.node);
      match NextPhase(|job.rows|, ready, failed, activeBuilds) {
        case PhaseFailed => FailJob(j, ready, activeBuilds);
        case PhaseMigrating => UpdateJobPhase(j, JobMigrating, ready, activeBuilds);
        case PhaseDraining =>
          if job.migrated < job.total { var _ := SwitchReadyRoutes(j); }
          UpdateJobPhase(j, JobDraining, ready, activeBuilds);
        case PhaseDeleting => DeleteNode(j, ready, unsettled, before, now, invalidArtifacts);
      }
    }

    /** Nothing is left to copy or to build: the job enters its last phase, or deletes the node. */
    method DeleteNode(j: nat, ready: nat, unsettled: seq<Job>, ghost before: State, now: int, invalidArtifacts: set<nat>)
      requires j < |before.jobs| && Evacuation.Running(before.jobs[j]) && unsettled == before.jobs
      requires before.jobs[j].migrated < before.jobs[j].total ==> TargetStillAvailable(before, before.jobs[j], now)
      requires Snapshot() == before.(jobs := before.jobs[j := before.jobs[j].(rows :=
                 SettledRows(before.jobs[j], before.deployments, invalidArtifacts))])
      requires ready == |RowsWith(jobs[j].rows, RowReady)|
      requires NextPhase(|jobs[j].rows|, ready, |RowsWith(jobs[j].rows, RowFailed)|, ActiveBuildCount(deployments, jobs[j].node)).PhaseDeleting?
      modifies this`deployments, this`jobs, this`nodes
      ensures Snapshot() == ProcessJob(before, j, now, invalidArtifacts)
    {
      var job := jobs[j];
      if job.status.JobDeleting? && job.node >= |nodes| {
        jobs := unsettled;
        return;
      }
      if job.migrated < job.total { var _ := SwitchReadyRoutes(j); }
      if !job.status.JobDeleting? {
        UpdateJobPhase(j, JobDeleting, ready, 0);
      } else {
        nodes := nodes[job.node := nodes[job.node].(status := NodeDisabled, deleted := true)];
        UpdateJobPhase(j, JobCompleted, ready, 0);
      }
    }

    // --- Transactions: each one commits as a whole or is rolled back ------------------------------

    /** Ends a transaction that began at `saved`: commits what was done, or restores the tables. */
    method Finish(r: Result<(), Failure>, saved: State, ghost a: Action)
      requires Run(log) == saved
      requires r.Ok? ==> Snapshot() == Step(saved, a)
      requires r.Err? ==> saved == Step(saved, a)
      modifies this
      ensures Valid() && log == old(log) + [a]
      ensures Snapshot() == if r.Ok? then old(Snapshot()) else saved
    {
      if r.Err? { Restore(saved); }
      RunExtends(log, a);
      log := log + [a];
    }

    method Restore(saved: State)
      modifies this`deployments, this`nodes, this`jobs, this`releases, this`history
      ensures Snapshot() == saved
    {
      deployments, nodes, jobs, releases, history := saved.deployments, saved.nodes, saved.jobs, saved.releases, saved.history;
    }

    method Tables() returns (s: State)
      ensures s == Snapshot()
    {
      s := State(deployments, nodes, jobs, releases, history);
    }

    method CreateNodeRow(region: string, capacity: NodeResources)
      requires Valid()
      modifies this
      ensures Valid() && log == old(log) + [ACreateNode(region, capacity)]
    {
      var saved := Tables();
      nodes := nodes + [Node(NodePending, false, true, true, false, None, region, capacity)];
      Finish(Ok(()), saved, ACreateNode(region, capacity));
    }

    /** `seen` is the status of the node when it authenticated, before this update. */
    method RecordNodeActivity(n: nat, seen: NodeStatus, serve: bool, build: bool, baseUrl: bool, now: int) returns (r: Result<(), Failure>)
      requires Valid()
      modifies this
      ensures Valid() && log == old(log) + [ANodeActivity(n, seen, serve, build, baseUrl, now)]
      ensures r.Err? ==> Snapshot() == old(Snapshot())
      ensures r.Ok? <==> n < |old(nodes)| && !seen.NodeDisabled?
    {
      var saved := Tables();
      if n >= |nodes| || seen.NodeDisabled? {
        r := Err(Forbidden);
      } else {
        r := Ok(());
        nodes := nodes[n := nodes[n].(status := StatusAfterNodeActivity(seen), serveEnabled := serve,
                                      buildEnabled := build, hasBaseUrl := baseUrl, lastHeartbeat := Some(now))];
      }
      Finish(r, saved, ANodeActivity(n, seen, serve, build, baseUrl, now));
    }

    /** Every Active node that has not been heard of since the threshold goes Offline; other nodes stay as they are. */
    method SweepStaleNodes(now: int, staleAfterSeconds: int) returns (updated: nat)
      requires Valid()
      modifies this
      ensures Valid() && log == old(log) + [AMarkStale(now, staleAfterSeconds)]
      ensures StaleFlipped(old(nodes), nodes, now - staleAfterSeconds * 1000)
      ensures updated == |Flipped(old(nodes), nodes)|
    {
      var saved := Tables();
      updated := FlipStaleNodes(now - staleAfterSeconds * 1000);
      FlippingIsMarking(saved, nodes, now, staleAfterSeconds);
      Finish(Ok(()), saved, AMarkStale(now, staleAfterSeconds));
    }

    static predicate HeardSince(n: Node, threshold: int) {
      n.lastHeartbeat.Some? && n.lastHeartbeat.value >= threshold
    }

    /** The node is not an Active one that was not heard of since the threshold, and it has changed only if it was
        one: then it went Offline. */
    static predicate NodeFlipped(before: Node, after: Node, threshold: int) {
      && (after.status.NodeActive? && !after.deleted ==> HeardSince(after, threshold))
      && (after != before ==>
            && before.status.NodeActive? && !before.deleted && !HeardSince(before, threshold)
            && after == before.(status := NodeOffline))
    }

    static ghost predicate StaleFlipped(before: seq<Node>, after: seq<Node>, threshold: int) {
      |after| == |before| && forall n: nat :: n < |after| ==> NodeFlipped(before[n], after[n], threshold)
    }

    static ghost function Flipped(before: seq<Node>, after: seq<Node>): set<nat> {
      set n: nat | n < |before| && n < |after| && after[n] != before[n]
    }

    static lemma FlippingIsMarking(s: State, after: seq<Node>, now: int, staleAfterSeconds: int)
      requires StaleFlipped(s.nodes, after, now - staleAfterSeconds * 1000)
      ensures s.(nodes := after) == MarkStaleOffline(s, now, staleAfterSeconds)
    {
      assert after == MarkStaleOffline(s, now, staleAfterSeconds).nodes;
    }

    /** The rows the conditional update touches, one by one. */
    method FlipStaleNodes(threshold: int) returns (updated: nat)
      modifies this`nodes
      ensures StaleFlipped(old(nodes), nodes, threshold)
      ensures updated == |Flipped(old(nodes), nodes)|
    {
      ghost var before := nodes;
      ghost var flipped: set<nat> := {};
      updated := 0;
      for k := 0 to |nodes|
        invariant |nodes| == |before|
        invariant forall n: nat :: k <= n < |before| ==> nodes[n] == before[n]
        invariant forall n: nat :: n < k ==> NodeFlipped(before[n], nodes[n], threshold)
        invariant flipped == set n: nat | n < k && nodes[n] != before[n]
        invariant updated == |flipped|
      {
        var changed := FlipNode(k, threshold);
        if changed {
          updated := updated + 1;
          flipped := flipped + {k};
        }
      }
      assert flipped == Flipped(before, nodes);
    }

    method FlipNode(k: nat, threshold: int) returns (changed: bool)
      requires k < |nodes|
      modifies this`nodes
      ensures |nodes| == |old(nodes)| && nodes == old(nodes)[k := nodes[k]] && NodeFlipped(old(nodes)[k], nodes[k], threshold)
      ensures changed <==> nodes[k] != old(nodes)[k]
    {
      var node := nodes[k];
      changed := node.status.NodeActive? && !node.deleted && (node.lastHeartbeat.None? || node.lastHeartbeat.value < threshold);
      if changed { nodes := nodes[k := node.(status := NodeOffline)]; }
    }

    method CreateDeploymentRow(project: nat, environment: Environment, ssr: bool, region: Option<string>, selected: Option<nat>,
                               random: nat, now: int)
      returns (r: Result<(), Failure>, chosen: Option<Placement>)
      requires Valid()
      modifies this
      ensures Valid() && log == old(log) + [ACreate(project, environment, ssr, region, selected, chosen, now)]
      ensures r.Err? ==> Snapshot() == old(Snapshot())
      ensures r.Ok? <==> chosen.Some?
      ensures r.Err? && selected.None? ==> NoRoom(old(Snapshot()), now, ServeResourcesFor(ssr), region)
    {
      var saved := Tables();
      chosen := PlaceDeployment(ServeResourcesFor(ssr), region, selected, random, now);
      if chosen.Some? {
        deployments := deployments + [NewDeployment(project, environment, ssr, chosen.value, now)];
        r := Ok(());
      } else {
        r := Err(Unschedulable);
      }
      CreateCommits(saved, ACreate(project, environment, ssr, region, selected, chosen, now));
      Finish(r, saved, ACreate(project, environment, ssr, region, selected, chosen, now));
    }

    static lemma CreateCommits(s: State, a: Action)
      requires a.ACreate?
      requires a.chosen.Some? ==> PlacementIsPossible(s, a.now, ServeResourcesFor(a.ssr), a.region_, a.selected, a.chosen.value)
      ensures Step(s, a) == if a.chosen.None? then s else
                s.(deployments := s.deployments + [NewDeployment(a.project, a.environment, a.ssr, a.chosen.value, a.now)])
    {
    }

    method ClaimBuildRow(i: nat, n: nat) returns (r: Result<(), Failure>)
      requires Valid()
      modifies this
      ensures Valid() && log == old(log) + [AClaim(i, n)]
      ensures r.Err? ==> Snapshot() == old(Snapshot())
    {
      var saved := Tables();
      if i < |deployments| && n < |nodes| && !nodes[n].deleted && nodes[n].status.NodeActive? && nodes[n].buildEnabled
         && deployments[i].build.BuildPending? {
        deployments := deployments[i := deployments[i].(build := Claimed, buildNode := Some(n))];
        r := Ok(());
      } else {
        r := Err(Conflict);
      }
      Finish(r, saved, AClaim(i, n));
    }

    /** `seen` is the build status of the row that the handler loaded before its transaction. */
    method ReportBuildProgressRow(i: nat, seen: BuildStatus, to: BuildStatus) returns (r: Result<(), Failure>)
      requires Valid()
      modifies this
      ensures Valid() && log == old(log) + [ABuildProgress(i, seen, to)]
      ensures r.Err? ==> Snapshot() == old(Snapshot())
    {
      var saved := Tables();
      r := Err(NotFound);
      if i < |deployments| && (to.Queued? || to.Building?) && CanTransitionBuild(seen, to) {
        deployments := deployments[i := deployments[i].(build := to)];
        r := Ok(());
      }
      Finish(r, saved, ABuildProgress(i, seen, to));
    }

    /** The disk used on node `n` by what is assigned to it. */
    method UsedDisk(n: nat) returns (used: nat)
      ensures used == AssignedUsage(deployments, n, Disk)
    {
      used := 0;
      for k := 0 to |deployments|
        invariant used == Sum(k, AssignedTerm(deployments, n, Disk))
      {
        if deployments[k].serveNode == Some(n) && Live(deployments[k]) { used := used + deployments[k].resources.disk; }
      }
    }

    method StoreArtifact(i: nat, disk: nat) returns (r: Result<(), Failure>)
      requires Valid()
      modifies this
      ensures Valid() && log == old(log) + [AUpload(i, disk)]
      ensures r.Err? ==> Snapshot() == old(Snapshot())
    {
      var saved := Tables();
      r := Err(Conflict);
      if i < |deployments| {
        var d := deployments[i];
        if d.serveNode.Some? && d.serveNode.value < |nodes| && !nodes[d.serveNode.value].deleted && nodes[d.serveNode.value].serveEnabled {
          var used := UsedDisk(d.serveNode.value);
          var others := if used >= d.resources.disk then used - d.resources.disk else 0;
          if SaturatingAdd(others, disk) <= nodes[d.serveNode.value].capacity.disk {
            deployments := deployments[i := d.(resources := d.resources.(disk := disk))];
            r := Ok(());
          }
        }
      }
      Finish(r, saved, AUpload(i, disk));
    }

    method FinalizeReadyBuild(i: nat, mode: ReviewMode) returns (r: Result<(), Failure>)
      requires Valid()
      modifies this
      ensures Valid() && log == old(log) + [AFinalizeReady(i, mode)]
      ensures r.Err? ==> Snapshot() == old(Snapshot())
    {
      var saved := Tables();
      r := Err(NotFound);
      if i < |deployments| { r := FinalizeReadyIn(i, mode); }
      Finish(r, saved, AFinalizeReady(i, mode));
    }

    method FinishUnsuccessfulBuild(i: nat, to: BuildStatus) returns (r: Result<(), Failure>)
      requires Valid()
      modifies this
      ensures Valid() && log == old(log) + [AUnsuccessful(i, to)]
      ensures r.Err? ==> Snapshot() == old(Snapshot())
    {
      var saved := Tables();
      r := Err(NotFound);
      if i < |deployments| { r := UnsuccessfulBuildIn(i, to); }
      Finish(r, saved, AUnsuccessful(i, to));
    }

    method ReportServe(i: nat, n: nat, capable: bool, status: ServeStatus, mode: ReviewMode) returns (r: Result<(), Failure>, job: Option<nat>)
      requires Valid()
      modifies this
      ensures Valid() && log == old(log) + [AServeReport(i, n, capable, status, job, mode)]
      ensures r.Err? ==> Snapshot() == old(Snapshot())
    {
      var saved := Tables();
      r, job := Err(NotFound), None;
      if i < |deployments| { r, job := ReportServeStatusIn(i, n, capable, status, mode); }
      Finish(r, saved, AServeReport(i, n, capable, status, job, mode));
    }

    method ActivateRelease(i: nat, seenReady: bool, seen: ReleaseStatus, reason: ReleaseReason, mode: ReviewMode, random: nat, now: int)
      returns (r: Result<(), Failure>, chosen: Option<Placement>)
      requires Valid()
      modifies this
      ensures Valid() && log == old(log) + [AActivate(i, seenReady, seen, reason, mode, chosen, now)]
      ensures r.Err? ==> Snapshot() == old(Snapshot())
    {
      var saved := Tables();
      r, chosen := Err(NotFound), None;
      if i < |deployments| { r, chosen := ActivateIn(i, seenReady, seen, reason, mode, random, now); }
      Finish(r, saved, AActivate(i, seenReady, seen, reason, mode, chosen, now));
    }

    method ReviewDeployment(i: nat, approved: bool, random: nat, now: int) returns (r: Result<(), Failure>, chosen: Option<Placement>)
      requires Valid()
      modifies this
      ensures Valid() && log == old(log) + [AReview(i, approved, chosen, now)]
      ensures r.Err? ==> Snapshot() == old(Snapshot())
    {
      var saved := Tables();
      r, chosen := Err(NotFound), None;
      if i < |deployments| { r, chosen := ResolveReviewIn(i, approved, random, now); }
      Finish(r, saved, AReview(i, approved, chosen, now));
    }

    method RepublishDeployment(i: nat, mode: ReviewMode, random: nat, now: int) returns (r: Result<(), Failure>, chosen: Option<Placement>)
      requires Valid()
      modifies this
      ensures Valid() && log == old(log) + [ARepublish(i, mode, chosen, now)]
      ensures r.Err? ==> Snapshot() == old(Snapshot())
    {
      var saved := Tables();
      r, chosen := Err(NotFound), None;
      if i < |deployments| { r, chosen := RepublishIn(i, mode, random, now); }
      Finish(r, saved, ARepublish(i, mode, chosen, now));
    }

    method WithdrawPublication(i: nat, kind: PublicationRemovalKind) returns (r: Result<(), Failure>)
      requires Valid()
      modifies this
      ensures Valid() && log == old(log) + [ARemovePublication(i, kind)]
      ensures r.Err? ==> Snapshot() == old(Snapshot())
    {
      var saved := Tables();
      r := Err(NotFound);
      if i < |deployments| { r := RemovePublicationIn(i, kind); }
      Finish(r, saved, ARemovePublication(i, kind));
    }

    method EnqueueDeletion(n: nat, target: Option<nat>, now: int) returns (r: Result<(), Failure>)
      requires Valid()
      modifies this
      ensures Valid() && log == old(log) + [AEnqueue(n, target, now)]
      ensures r.Err? ==> Snapshot() == old(Snapshot())
    {
      var saved := Tables();
      r := EnqueueIn(n, target, now);
      Finish(r, saved, AEnqueue(n, target, now));
    }

    method RunJob(j: nat, now: int, invalidArtifacts: set<nat>)
      requires Valid() && j < |jobs|
      modifies this
      ensures Valid() && log == old(log) + [AProcessJob(j, now, invalidArtifacts)] && |jobs| == old(|jobs|)
    {
      var saved := Tables();
      ProcessJobIn(j, now, invalidArtifacts);
      Finish(Ok(()), saved, AProcessJob(j, now, invalidArtifacts));
    }

    /** The error path of the queue. */
    method AbandonJob(j: nat)
      requires Valid() && j < |jobs|
      modifies this
      ensures Valid() && log == old(log) + [AAbortJob(j)] && |jobs| == old(|jobs|)
    {
      var saved := Tables();
      if !jobs[j].status.JobFailed? && !jobs[j].status.JobCompleted? {
        FailJob(j, jobs[j].migrated, jobs[j].activeBuilds);
      }
      Finish(Ok(()), saved, AAbortJob(j));
    }

    /** One sweep of the deletion queue: every job that was running when the sweep began gets exactly one
        pass, in order; a pass that breaks is rolled back and its job is failed instead. */
    method ProcessPendingJobs(now: int, invalidArtifacts: set<nat>, broken: set<nat>) returns (processed: nat)
      requires Valid()
      modifies this
      ensures Valid()
      ensures log == old(log) + QueuePasses(old(jobs), |old(jobs)|, now, invalidArtifacts, broken)
      ensures processed == |QueuePasses(old(jobs), |old(jobs)|, now, invalidArtifacts, broken)|
    {
      var listed := jobs;
      processed := 0;
      for j := 0 to |listed|
        invariant Valid() && |jobs| == |listed|
        invariant log == old(log) + QueuePasses(listed, j, now, invalidArtifacts, broken)
        invariant processed == |QueuePasses(listed, j, now, invalidArtifacts, broken)|
      {
        if Evacuation.Running(listed[j]) {
          if j in broken { AbandonJob(j); } else { RunJob(j, now, invalidArtifacts); }
          processed := processed + 1;
        }
      }
    }

    static function QueuePasses(jobs: seq<Job>, k: nat, now: int, invalidArtifacts: set<nat>, broken: set<nat>): seq<Action>
      requires k <= |jobs|
    {
      if k == 0 then []
      else
        var before := QueuePasses(jobs, k - 1, now, invalidArtifacts, broken);
        if !Evacuation.Running(jobs[k - 1]) then before
        else before + [if k - 1 in broken then AAbortJob(k - 1) else AProcessJob(k - 1, now, invalidArtifacts)]
    }

    // --- What the tables satisfy between transactions -----------------------------------------------

    /** Whatever transactions have run: releases are unique and assignments agree with the serve status; deleted
        nodes are idle when nothing endangered them, and no node is overfull when every assignment fitted. */
    lemma TablesAreSafe()
      requires Valid()
      ensures OnePerEnvironment(deployments)
      ensures forall i: nat :: i < |deployments| ==> (deployments[i].serve.Retired? <==> deployments[i].serveNode.None?)
      ensures NodeSafety.NeverEndangersDeleted(log) ==> NodeSafety.Idle(Snapshot())
      ensures Evacuation.Orderly(log) ==>
                forall i: nat, n: nat :: i < |deployments| && n < |nodes| && nodes[n].deleted ==>
                  !LiveOn(deployments[i], n) && !BuildingOn(deployments[i], n)
      ensures Assignments.AssignmentsFit(log) ==>
                forall n: nat :: n < |nodes| ==> AssignedUsage(deployments, n, Disk) <= nodes[n].capacity.disk
    {
      ReleaseInvariants.RunKeepsBase(log);
      forall i: nat | i < |deployments| ensures ReleaseInvariants.RowAssigned(deployments[i]) {}
      assert log[..|log|] == log;
      if NodeSafety.NeverEndangersDeleted(log) { NodeSafety.IdleAfter(log, |log|); }
      if Evacuation.Orderly(log) { Evacuation.RunKeeps(log); }
      if Assignments.AssignmentsFit(log) {
        Assignments.AssignedAfter(log, |log|);
        forall n: nat | n < |nodes| ensures AssignedUsage(deployments, n, Disk) <= nodes[n].capacity.disk {
          assert Assignments.NodeWithin(Snapshot(), n) && Capacity.Hard(Disk);
        }
      }
    }
  }
}
