/** The control plane's tables and its transactions, each one atomic step. */
module ControlPlane {
  import opened Basics
  import opened Lifecycle
  import opened Scheduler
  import opened Delivery

  // --- Tables ---------------------------------------------------------------------

  datatype NodeStatus = NodePending | NodeActive | NodeDraining | NodeOffline | NodeDisabled

  /** Times are milliseconds since the epoch. */
  datatype Node = Node(
    status: NodeStatus,
    deleted: bool,
    serveEnabled: bool,
    buildEnabled: bool,
    hasBaseUrl: bool,
    lastHeartbeat: Option<int>,
    region: string,
    capacity: NodeResources)

  datatype JobStatus = JobQueued | JobMigrating | JobDraining | JobDeleting | JobFailed | JobCompleted
  datatype RowStatus = RowPending | RowSyncing | RowReady | RowFailed

  /** A deletion job with its migration rows, at most one per deployment. */
  datatype Job = Job(
    node: nat,
    target: Option<nat>,
    status: JobStatus,
    total: nat,
    migrated: nat,
    activeBuilds: nat,
    rows: map<nat, RowStatus>)

  datatype Release = Release(
    project: nat, environment: Environment, deployment: nat, reason: ReleaseReason, previous: Option<nat>)

  /** The release and review entries of the deployment event log. */
  datatype Entry = ReleaseChanged(deployment: nat, to: ReleaseStatus) | ReviewApproved(deployment: nat)

  datatype State = State(
    deployments: seq<Deployment>,
    nodes: seq<Node>,
    jobs: seq<Job>,
    releases: seq<Release>,
    history: seq<Entry>)

  datatype Failure = NotFound | Conflict | Forbidden | InvalidState(error: StateError) | ReleaseAlreadyPending | Unschedulable

  datatype ReviewMode = ManualReview | AutoReview
  datatype PublicationRemovalKind = TeamUser | PlatformAdmin

  const INITIAL := State([], [], [], [], [])

  // --- Nodes ----------------------------------------------------------------------

  /** Whole seconds of a signed duration, truncated toward zero. */
  function WholeSeconds(milliseconds: int): int {
    if milliseconds >= 0 then milliseconds / 1000 else -((-milliseconds) / 1000)
  }

  predicate IsHealthy(n: Node, now: int, staleAfterSeconds: int) {
    n.status.NodeActive? && n.lastHeartbeat.Some? && WholeSeconds(now - n.lastHeartbeat.value) <= staleAfterSeconds
  }

  predicate TargetIsAvailable(n: Node, now: int) {
    n.serveEnabled && n.hasBaseUrl && IsHealthy(n, now, 90)
  }

  /** The WHERE clause of the eligible candidates query. */
  predicate IsEligible(n: Node, now: int) {
    && !n.deleted && n.status.NodeActive? && n.serveEnabled && n.hasBaseUrl
    && n.lastHeartbeat.Some? && n.lastHeartbeat.value >= now - 90_000
    && n.capacity.cpu > 0 && n.capacity.memory > 0 && n.capacity.disk > 0 && n.capacity.maxDeployments > 0
  }

  function StatusAfterNodeActivity(current: NodeStatus): NodeStatus {
    if current.NodeDraining? then NodeDraining else NodeActive
  }

  // --- Scheduler usage --------------------------------------------------------------

  datatype Measure = Cpu | Memory | Disk | Slots

  function Weight(m: Measure, d: Deployment): nat {
    match m
    case Cpu => d.resources.cpu
    case Memory => d.resources.memory
    case Disk => d.resources.disk
    case Slots => 1
  }

  /** A migration row that reserves room on node `n` for deployment `i`. */
  predicate ShadowRow(job: Job, n: nat, i: nat) {
    job.target == Some(n) && i in job.rows && !job.rows[i].RowFailed?
  }

  predicate ShadowOn(job: Job, n: nat, i: nat, d: Deployment) {
    ShadowRow(job, n, i) && Live(d) && d.serveNode != Some(n)
  }

  function ShadowTerm(jobs: seq<Job>, n: nat, i: nat, d: Deployment, m: Measure): nat -> nat {
    (j: nat) => if j < |jobs| && ShadowOn(jobs[j], n, i, d) then Weight(m, d) else 0
  }

  function AssignedShare(d: Deployment, n: nat, m: Measure): nat {
    if LiveOn(d, n) then Weight(m, d) else 0
  }

  /** What deployment `i` takes from node `n` in the scheduler's query: its own share when it is
      assigned there, and one shadow share per migration row that targets the node. */
  function UsageShare(s: State, n: nat, m: Measure, i: nat): nat {
    if i < |s.deployments|
    then AssignedShare(s.deployments[i], n, m) + Sum(|s.jobs|, ShadowTerm(s.jobs, n, i, s.deployments[i], m))
    else 0
  }

  function AssignedTerm(ds: seq<Deployment>, n: nat, m: Measure): nat -> nat {
    (i: nat) => if i < |ds| then AssignedShare(ds[i], n, m) else 0
  }

  function UsageTerm(s: State, n: nat, m: Measure): nat -> nat {
    (i: nat) => UsageShare(s, n, m, i)
  }

  /** The node usage query: live assignments only. */
  function AssignedUsage(ds: seq<Deployment>, n: nat, m: Measure): nat {
    Sum(|ds|, AssignedTerm(ds, n, m))
  }

  function ScheduledUsage(s: State, n: nat, m: Measure): nat {
    Sum(|s.deployments|, UsageTerm(s, n, m))
  }

  function CandidateFor(s: State, n: nat): Candidate
    requires n < |s.nodes|
  {
    Candidate(n, s.nodes[n].region, s.nodes[n].capacity,
              NodeUsage(ScheduledUsage(s, n, Cpu), ScheduledUsage(s, n, Memory), ScheduledUsage(s, n, Disk), ScheduledUsage(s, n, Slots)))
  }

  function EligibleBelow(s: State, now: int, k: nat): (cs: seq<Candidate>)
    requires k <= |s.nodes|
    ensures forall c :: c in cs ==> c.nodeId < k && IsEligible(s.nodes[c.nodeId], now) && c == CandidateFor(s, c.nodeId)
    ensures forall n: nat :: n < k && IsEligible(s.nodes[n], now) ==> CandidateFor(s, n) in cs
  {
    if k == 0 then []
    else EligibleBelow(s, now, k - 1) + (if IsEligible(s.nodes[k - 1], now) then [CandidateFor(s, k - 1)] else [])
  }

  function EligibleCandidates(s: State, now: int): seq<Candidate> {
    EligibleBelow(s, now, |s.nodes|)
  }

  // --- Deployment row updates ---------------------------------------------------------

  function SetRow(s: State, i: nat, d: Deployment): State
    requires i < |s.deployments|
  {
    s.(deployments := s.deployments[i := d])
  }

  function Lift<T>(r: Result<T, StateError>): Result<T, Failure> {
    match r
    case Ok(v) => Ok(v)
    case Err(e) => Err(InvalidState(e))
  }

  function ChangeRelease(s: State, i: nat, to: ReleaseStatus): Result<State, Failure>
    requires i < |s.deployments|
  {
    var d :- Lift(TransitionRelease(s.deployments[i], to));
    Ok(SetRow(s, i, d).(history := s.history + [ReleaseChanged(i, to)]))
  }

  function Reconcile(s: State, project: nat, environment: Environment): State {
    s.(deployments := Reconciled(s.deployments, project, environment))
  }

  function ReconcileAround(s: State, i: nat): State
    requires i < |s.deployments|
  {
    Reconcile(s, s.deployments[i].project, s.deployments[i].environment)
  }

  // --- Activation ---------------------------------------------------------------------

  /** The Active deployment of the environment of `i`, other than `i` itself. */
  function FindActive(ds: seq<Deployment>, k: nat, i: nat): (found: Option<nat>)
    requires k <= |ds| && i < |ds|
    ensures found.Some? ==> found.value < k && found.value != i && ds[found.value].release.Active?
                            && SameEnvironment(ds[found.value], ds[i])
    ensures found.None? ==> forall a: nat :: a < k && a != i && SameEnvironment(ds[a], ds[i]) ==> !ds[a].release.Active?
  {
    if k == 0 then None
    else if k - 1 != i && ds[k - 1].release.Active? && SameEnvironment(ds[k - 1], ds[i]) then Some(k - 1)
    else FindActive(ds, k - 1, i)
  }

  function Activate(s: State, i: nat, reason: ReleaseReason): Result<State, Failure>
    requires i < |s.deployments|
  {
    var d := s.deployments[i];
    var _ :- Lift(ValidateReleaseReadiness(d.release, Active, d.build, d.serve));
    var previous := FindActive(s.deployments, |s.deployments|, i);
    var demoted :- if previous.Some? then ChangeRelease(s, previous.value, Approved) else Ok(s);
    var activated :- ChangeRelease(demoted, i, Active);
    Ok(activated.(releases := activated.releases + [Release(d.project, d.environment, i, reason, previous)]))
  }

  // --- Releases -------------------------------------------------------------------------

  predicate PendingElsewhere(ds: seq<Deployment>, i: nat)
    requires i < |ds|
  {
    exists k: nat :: k < |ds| && SameEnvironment(ds[k], ds[i]) && ds[k].pending.Some?
  }

  predicate PlacementIsPossible(s: State, now: int, requested: ServeResources, region: Option<string>,
                                selected: Option<nat>, p: Placement)
  {
    IsPlacement(p, EligibleCandidates(s, now), requested, region, selected)
  }

  function Placed(d: Deployment, p: Placement): Deployment {
    d.(serveNode := Some(p.nodeId), overcommitted := p.overcommitted, serve := ServePending)
  }

  /** `chosen` is the scheduler's answer, used only when the deployment needs a new assignment. */
  function RequestRelease(s: State, i: nat, reason: ReleaseReason, chosen: Option<Placement>, now: int): Result<State, Failure>
    requires i < |s.deployments|
  {
    var d := s.deployments[i];
    if PendingElsewhere(s.deployments, i) then Err(ReleaseAlreadyPending)
    else if d.serveNode.Some? && d.serve.ServeReady? then
      ActivateAndReconcile(s, i, reason)
    else QueueRelease(s, i, reason, chosen, now)
  }

  function ActivateAndReconcile(s: State, i: nat, reason: ReleaseReason): Result<State, Failure>
    requires i < |s.deployments|
  {
    var activated :- Activate(s, i, reason);
    Ok(ReconcileAround(activated, i))
  }

  function QueueRelease(s: State, i: nat, reason: ReleaseReason, chosen: Option<Placement>, now: int): Result<State, Failure>
    requires i < |s.deployments|
  {
    var d := s.deployments[i];
    if d.serveNode.None? || d.serve.Retired? then
      if chosen.Some? && PlacementIsPossible(s, now, d.resources, Some(d.region), None, chosen.value) then
        Ok(ReconcileAround(SetRow(s, i, Placed(d, chosen.value).(pending := Some(reason))), i))
      else Err(Unschedulable)
    else Ok(ReconcileAround(SetRow(s, i, d.(pending := Some(reason))), i))
  }

  function CompletePendingRelease(s: State, i: nat): Result<State, Failure>
    requires i < |s.deployments|
  {
    var d := s.deployments[i];
    if d.pending.None? || !d.serve.ServeReady? then Ok(s)
    else
      var activated :- Activate(s, i, d.pending.value);
      Ok(ReconcileAround(SetRow(activated, i, activated.deployments[i].(pending := None)), i))
  }

  function CompleteServeReady(s: State, i: nat, mode: ReviewMode): Result<State, Failure>
    requires i < |s.deployments|
  {
    var d := s.deployments[i];
    var settled :- if d.pending.Some? then CompletePendingRelease(s, i)
                   else if mode.AutoReview? && d.release.Draft? then Activate(s, i, Auto)
                   else Ok(s);
    Ok(ReconcileAround(settled, i))
  }

  function PublicationRemovalTarget(kind: PublicationRemovalKind): ReleaseStatus {
    match kind
    case TeamUser => Approved
    case PlatformAdmin => Draft
  }

  function RemovePublication(s: State, i: nat, kind: PublicationRemovalKind): Result<State, Failure>
    requires i < |s.deployments|
  {
    var d := s.deployments[i];
    if d.release == PublicationRemovalTarget(kind) && d.serve.Retired? then Ok(s)
    else
      var changed :- ChangeRelease(s, i, PublicationRemovalTarget(kind));
      Ok(ReconcileAround(SetRow(changed, i, Unassigned(changed.deployments[i]).(pending := None)), i))
  }

  // --- Builds ---------------------------------------------------------------------------

  function ServeResourcesFor(ssr: bool): ServeResources {
    if ssr then ServeResources(200, 256, 512) else ServeResources(50, 64, 256)
  }

  function NewDeployment(project: nat, environment: Environment, ssr: bool, p: Placement, createdAt: int): Deployment {
    Deployment(project, environment, p.region, createdAt, BuildPending, ServePending, Draft, None, None,
               Some(p.nodeId), ServeResourcesFor(ssr), p.overcommitted)
  }

  function CreateDeployment(s: State, project: nat, environment: Environment, ssr: bool, region: Option<string>,
                            selected: Option<nat>, chosen: Option<Placement>, now: int): Result<State, Failure>
  {
    if chosen.Some? && PlacementIsPossible(s, now, ServeResourcesFor(ssr), region, selected, chosen.value)
    then Ok(s.(deployments := s.deployments + [NewDeployment(project, environment, ssr, chosen.value, now)]))
    else Err(Unschedulable)
  }

  function ClaimBuild(s: State, i: nat, n: nat): Result<State, Failure>
    requires i < |s.deployments|
  {
    var d := s.deployments[i];
    if n < |s.nodes| && !s.nodes[n].deleted && s.nodes[n].status.NodeActive? && s.nodes[n].buildEnabled && d.build.BuildPending?
    then Ok(SetRow(s, i, d.(build := Claimed, buildNode := Some(n))))
    else Err(Conflict)
  }

  /** A build report is checked against the row its handler read before the transaction, whose build status was
      `seen`, and then written over the row as it is by then. */
  function ReportBuildProgress(s: State, i: nat, seen: BuildStatus, to: BuildStatus): Result<State, Failure>
    requires i < |s.deployments|
  {
    if !(to.Queued? || to.Building?) then Err(Conflict)
    else if !CanTransitionBuild(seen, to) then Err(InvalidState(InvalidBuildTransition))
    else Ok(SetRow(s, i, s.deployments[i].(build := to)))
  }

  function FinalizeReady(s: State, i: nat, mode: ReviewMode): Result<State, Failure>
    requires i < |s.deployments|
  {
    var built :- if s.deployments[i].build.BuildReady? then Ok(s.deployments[i])
                 else Lift(TransitionBuild(s.deployments[i], BuildReady));
    var ready := SetRow(s, i, built);
    var settled :- if mode.ManualReview? && built.release.Draft? then ChangeRelease(ready, i, PendingReview) else Ok(ready);
    Ok(ReconcileAround(settled, i))
  }

  function TransitionUnsuccessfulBuild(s: State, i: nat, to: BuildStatus): Result<State, Failure>
    requires i < |s.deployments|
  {
    if !(to.BuildFailed? || to.BuildCanceled?) then Err(Conflict) else
    var d :- Lift(TransitionBuild(s.deployments[i], to));
    Ok(ReconcileAround(SetRow(s, i, d), i))
  }

  // --- The release handlers --------------------------------------------------------------

  /** The action is chosen by the row that the handler read before its transaction, whose build was ready when
      `seenReady` and whose release status was `seen`; the release request in the transaction does not look again. */
  function ActivateDeployment(s: State, i: nat, seenReady: bool, seen: ReleaseStatus, reason: ReleaseReason, mode: ReviewMode,
                              chosen: Option<Placement>, now: int): Result<State, Failure>
    requires i < |s.deployments|
  {
    if !seenReady || seen.Active? || seen.Rejected? || seen.PendingReview? then Err(Conflict)
    else if seen.Draft? && mode.ManualReview? then ChangeRelease(s, i, PendingReview)
    else RequestRelease(s, i, reason, chosen, now)
  }

  predicate ReviewableArtifact(d: Deployment) {
    d.build.BuildReady? && (d.serve.ServeReady? || d.serve.Retired?)
  }

  function ResolveReview(s: State, i: nat, approved: bool, chosen: Option<Placement>, now: int): Result<State, Failure>
    requires i < |s.deployments|
  {
    if !ReviewableArtifact(s.deployments[i]) || !s.deployments[i].release.PendingReview? then Err(Conflict)
    else if !approved then ChangeRelease(s, i, Rejected)
    else
      var changed :- ChangeRelease(s, i, Approved);
      RequestRelease(changed.(history := changed.history + [ReviewApproved(i)]), i, Promote, chosen, now)
  }

  function Republish(s: State, i: nat, mode: ReviewMode, chosen: Option<Placement>, now: int): Result<State, Failure>
    requires i < |s.deployments|
  {
    var d := s.deployments[i];
    if !ReviewableArtifact(d) || d.release.PendingReview? || d.release.Active? then Err(Conflict)
    else if mode.ManualReview? && !d.release.Approved? then ChangeRelease(s, i, PendingReview)
    else if d.release.Rejected? then
      var resubmitted :- ChangeRelease(s, i, PendingReview);
      var approved :- ChangeRelease(resubmitted, i, Approved);
      RequestRelease(approved, i, Promote, chosen, now)
    else RequestRelease(s, i, Promote, chosen, now)
  }

  // --- Serve reports -----------------------------------------------------------------------

  /** A report from node `n`, which was `capable` of serving when it authenticated; `job` is the migration row the
      query returns when the node is a shadow target. */
  function ReportServeStatus(s: State, i: nat, n: nat, capable: bool, status: ServeStatus, job: Option<nat>, mode: ReviewMode)
    : Result<State, Failure>
    requires i < |s.deployments|
  {
    var d := s.deployments[i];
    if n >= |s.nodes| || !capable then Err(Forbidden)
    else if !(status.Syncing? || status.ServeReady? || status.ServeFailed?) then Err(Conflict)
    else if d.serveNode != Some(n) && job.Some? && job.value < |s.jobs| && ShadowRow(s.jobs[job.value], n, i) then
      var shadow := s.jobs[job.value];
      Ok(s.(jobs := s.jobs[job.value := shadow.(rows := shadow.rows[i := RowFor(status)])]))
    else if d.serveNode != Some(n) then Err(Forbidden)
    else if !d.build.BuildReady? then Err(Conflict)
    else
      var served :- Lift(TransitionServe(d, status));
      if status.ServeReady? then CompleteServeReady(SetRow(s, i, served), i, mode) else Ok(SetRow(s, i, served))
  }

  function RowFor(status: ServeStatus): RowStatus {
    if status.Syncing? then RowSyncing else if status.ServeReady? then RowReady else RowFailed
  }

  // --- Node deletion ---------------------------------------------------------------------------

  datatype DeletionPhase = PhaseMigrating | PhaseDraining | PhaseDeleting | PhaseFailed

  function NextPhase(total: nat, ready: nat, failed: nat, activeBuilds: nat): DeletionPhase {
    if failed > 0 then PhaseFailed
    else if ready < total then PhaseMigrating
    else if activeBuilds > 0 then PhaseDraining
    else PhaseDeleting
  }

  function AssignedIds(ds: seq<Deployment>, n: nat): set<nat> {
    set i: nat | i < |ds| && LiveOn(ds[i], n)
  }

  function ActiveBuildCount(ds: seq<Deployment>, n: nat): nat {
    |set i: nat | i < |ds| && BuildingOn(ds[i], n)|
  }

  function RowsWith(rows: map<nat, RowStatus>, status: RowStatus): set<nat> {
    set i | i in rows && rows[i] == status
  }

  function CheckedAdd(a: Option<nat>, b: nat): Option<nat> {
    if a.None? || a.value + b > U64_MAX then None else Some(a.value + b)
  }

  /** The checked fold of one resource over the deployments assigned to node `n`. */
  function RequestedTotal(ds: seq<Deployment>, k: nat, n: nat, m: Measure): Option<nat>
    requires k <= |ds|
  {
    if k == 0 then Some(0)
    else if LiveOn(ds[k - 1], n) then CheckedAdd(RequestedTotal(ds, k - 1, n, m), Weight(m, ds[k - 1]))
    else RequestedTotal(ds, k - 1, n, m)
  }

  predicate RoomFor(used: nat, requested: Option<nat>, capacity: nat) {
    var total := if requested.Some? then CheckedAdd(Some(used), requested.value) else None;
    total.Some? && total.value <= capacity
  }

  /** Whether the candidate has room, within its regular limits, for everything assigned to node `n`. */
  predicate CandidateCanHost(c: Candidate, ds: seq<Deployment>, n: nat) {
    && RoomFor(c.usage.cpu, RequestedTotal(ds, |ds|, n, Cpu), c.capacity.cpu)
    && RoomFor(c.usage.memory, RequestedTotal(ds, |ds|, n, Memory), c.capacity.memory)
    && RoomFor(c.usage.disk, RequestedTotal(ds, |ds|, n, Disk), c.capacity.disk)
    && RoomFor(c.usage.deployments, RequestedTotal(ds, |ds|, n, Slots), c.capacity.maxDeployments)
  }

  predicate IsEligibleTarget(s: State, n: nat, target: nat, now: int) {
    target != n && target < |s.nodes| && IsEligible(s.nodes[target], now)
    && CandidateCanHost(CandidateFor(s, target), s.deployments, n)
  }

  /** The job of node `n` that is not completed. */
  function ActiveJob(jobs: seq<Job>, k: nat, n: nat): (found: Option<nat>)
    requires k <= |jobs|
    ensures found.Some? ==> found.value < k && jobs[found.value].node == n && !jobs[found.value].status.JobCompleted?
    ensures found.None? ==> forall j: nat :: j < k && jobs[j].node == n ==> jobs[j].status.JobCompleted?
  {
    if k == 0 then None
    else if jobs[k - 1].node == n && !jobs[k - 1].status.JobCompleted? then Some(k - 1)
    else ActiveJob(jobs, k - 1, n)
  }

  function NewJob(s: State, n: nat, target: Option<nat>): Job {
    var onNode := AssignedIds(s.deployments, n);
    Job(n, target, JobQueued, |onNode|, 0, ActiveBuildCount(s.deployments, n),
        if target.Some? then map i | i in onNode :: RowPending else map[])
  }

  function Enqueue(s: State, n: nat, target: Option<nat>, now: int): Result<State, Failure> {
    if n >= |s.nodes| || s.nodes[n].deleted then Err(NotFound)
    else if AssignedIds(s.deployments, n) != {} && !(target.Some? && IsEligibleTarget(s, n, target.value, now)) then Err(Conflict)
    else if target.Some? && (target.value == n || target.value >= |s.nodes|) then Err(Conflict)
    else
      var existing := ActiveJob(s.jobs, |s.jobs|, n);
      if existing.Some? && !s.jobs[existing.value].status.JobFailed? then Err(Conflict)
      else
        var jobs := if existing.Some? then s.jobs[existing.value := NewJob(s, n, target)] else s.jobs + [NewJob(s, n, target)];
        Ok(s.(jobs := jobs, nodes := s.nodes[n := s.nodes[n].(status := NodeDraining)]))
  }

  function Failed(job: Job, ready: nat, activeBuilds: nat): Job {
    job.(status := JobFailed, migrated := ready, activeBuilds := activeBuilds,
         rows := map i | i in job.rows :: RowFailed)
  }

  /** What the settling loop makes of one row. */
  function SettledRow(row: RowStatus, d: Deployment, artifactInvalid: bool): RowStatus {
    if row.RowReady? then row
    else if !Live(d) then RowReady
    else if d.build.BuildReady? && artifactInvalid then RowFailed
    else row
  }

  function SettledRows(job: Job, ds: seq<Deployment>, invalidArtifacts: set<nat>): map<nat, RowStatus> {
    map i | i in job.rows :: if i < |ds| then SettledRow(job.rows[i], ds[i], i in invalidArtifacts) else RowReady
  }

  /** The bulk update of `switch_ready_routes`. */
  function Switched(ds: seq<Deployment>, job: Job): (r: seq<Deployment>)
    ensures |r| == |ds|
  {
    seq(|ds|, i requires 0 <= i < |ds| =>
      if job.target.Some? && i in job.rows && LiveOn(ds[i], job.node)
      then ds[i].(serveNode := job.target, overcommitted := false) else ds[i])
  }

  predicate TargetStillAvailable(s: State, job: Job, now: int) {
    match job.target
    case Some(t) => t < |s.nodes| && TargetIsAvailable(s.nodes[t], now)
    case None => job.rows == map[]
  }

  function ProcessJob(s: State, j: nat, now: int, invalidArtifacts: set<nat>): State
    requires j < |s.jobs|
  {
    var job := s.jobs[j];
    if job.status.JobFailed? || job.status.JobCompleted? then s
    else
      var activeBuilds := ActiveBuildCount(s.deployments, job.node);
      if job.migrated < job.total && !TargetStillAvailable(s, job, now) then
        s.(jobs := s.jobs[j := Failed(job, |RowsWith(job.rows, RowReady)|, activeBuilds)])
      else
        var rows := SettledRows(job, s.deployments, invalidArtifacts);
        var settled := job.(rows := rows);
        var ready := |RowsWith(rows, RowReady)|;
        match NextPhase(|rows|, ready, |RowsWith(rows, RowFailed)|, activeBuilds)
        case PhaseFailed => s.(jobs := s.jobs[j := Failed(settled, ready, activeBuilds)])
        case PhaseMigrating =>
          s.(jobs := s.jobs[j := settled.(status := JobMigrating, migrated := ready, activeBuilds := activeBuilds)])
        case PhaseDraining =>
          SwitchRoutes(s, settled).(jobs := s.jobs[j := settled.(status := JobDraining, migrated := ready, activeBuilds := activeBuilds)])
        case PhaseDeleting =>
          if !job.status.JobDeleting? then
            SwitchRoutes(s, settled).(jobs := s.jobs[j := settled.(status := JobDeleting, migrated := ready, activeBuilds := 0)])
          else if job.node >= |s.nodes| then s
          else
            SwitchRoutes(s, settled).(
              jobs := s.jobs[j := settled.(status := JobCompleted, migrated := ready, activeBuilds := 0)],
              nodes := s.nodes[job.node := s.nodes[job.node].(status := NodeDisabled, deleted := true)])
  }

  /** The cutover happens only while some deployments are still counted as not migrated. */
  function SwitchRoutes(s: State, job: Job): State {
    if job.migrated < job.total then s.(deployments := Switched(s.deployments, job)) else s
  }

  /** The queue's error path: the failed pass is rolled back and the job is marked failed. */
  function AbortJob(s: State, j: nat): State
    requires j < |s.jobs|
  {
    var job := s.jobs[j];
    if job.status.JobFailed? || job.status.JobCompleted? then s
    else s.(jobs := s.jobs[j := Failed(job, job.migrated, job.activeBuilds)])
  }

  // --- Node activity -----------------------------------------------------------------------------

  function CreateNode(s: State, region: string, capacity: NodeResources): State {
    s.(nodes := s.nodes + [Node(NodePending, false, true, true, false, None, region, capacity)])
  }

  /** A registration or heartbeat writes the status that follows from the one the node had when it authenticated,
      `seen`, over the row as it is by then. Disabled nodes do not authenticate. */
  function NodeActivity(s: State, n: nat, seen: NodeStatus, serveEnabled: bool, buildEnabled: bool, hasBaseUrl: bool, now: int)
    : Result<State, Failure>
  {
    if n >= |s.nodes| || seen.NodeDisabled? then Err(Forbidden)
    else Ok(s.(nodes := s.nodes[n := s.nodes[n].(
      status := StatusAfterNodeActivity(seen), serveEnabled := serveEnabled, buildEnabled := buildEnabled,
      hasBaseUrl := hasBaseUrl, lastHeartbeat := Some(now))]))
  }

  function MarkedStale(n: Node, now: int, staleAfterSeconds: int): Node {
    if n.status.NodeActive? && !n.deleted
       && (n.lastHeartbeat.None? || n.lastHeartbeat.value < now - staleAfterSeconds * 1000)
    then n.(status := NodeOffline) else n
  }

  function MarkStaleOffline(s: State, now: int, staleAfterSeconds: int): State {
    s.(nodes := seq(|s.nodes|, n requires 0 <= n < |s.nodes| => MarkedStale(s.nodes[n], now, staleAfterSeconds)))
  }

  // --- Artifact upload ------------------------------------------------------------------------------

  /** The upload of a build output replaces the disk share of its deployment. */
  function UploadArtifact(s: State, i: nat, disk: nat): Result<State, Failure>
    requires i < |s.deployments|
  {
    var d := s.deployments[i];
    if d.serveNode.None? || d.serveNode.value >= |s.nodes| || s.nodes[d.serveNode.value].deleted
       || !s.nodes[d.serveNode.value].serveEnabled then Err(Conflict)
    else
      var used := AssignedUsage(s.deployments, d.serveNode.value, Disk);
      var others := if used >= d.resources.disk then used - d.resources.disk else 0;
      if SaturatingAdd(others, disk) > s.nodes[d.serveNode.value].capacity.disk then Err(Conflict)
      else Ok(SetRow(s, i, d.(resources := d.resources.(disk := disk))))
  }

  // --- Runs -------------------------------------------------------------------------------------------

  datatype Action =
    | ACreateNode(region: string, capacity: NodeResources)
    | ANodeActivity(node: nat, seenNode: NodeStatus, serveEnabled: bool, buildEnabled: bool, hasBaseUrl: bool, now: int)
    | AMarkStale(now: int, staleAfterSeconds: int)
    | ACreate(project: nat, environment: Environment, ssr: bool, region_: Option<string>, selected: Option<nat>, chosen: Option<Placement>, now: int)
    | AClaim(deployment: nat, node: nat)
    | ABuildProgress(deployment: nat, seenBuild: BuildStatus, build: BuildStatus)
    | AFinalizeReady(deployment: nat, mode: ReviewMode)
    | AUnsuccessful(deployment: nat, build: BuildStatus)
    | AServeReport(deployment: nat, node: nat, capable: bool, serve: ServeStatus, job_: Option<nat>, mode: ReviewMode)
    | AActivate(deployment: nat, seenReady: bool, seenRelease: ReleaseStatus, reason: ReleaseReason, mode: ReviewMode, chosen: Option<Placement>, now: int)
    | AReview(deployment: nat, approved: bool, chosen: Option<Placement>, now: int)
    | ARepublish(deployment: nat, mode: ReviewMode, chosen: Option<Placement>, now: int)
    | ARemovePublication(deployment: nat, kind: PublicationRemovalKind)
    | AEnqueue(node: nat, target: Option<nat>, now: int)
    | AProcessJob(job: nat, now: int, invalidArtifacts: set<nat>)
    | AAbortJob(job: nat)
    | AUpload(deployment: nat, disk: nat)

  function Commit(s: State, r: Result<State, Failure>): State {
    if r.Ok? then r.value else s
  }

  /** One transaction: it commits, or rolls back and changes nothing. */
  function Step(s: State, a: Action): State {
    match a
    case ACreateNode(region, capacity) => CreateNode(s, region, capacity)
    case ANodeActivity(n, seen, serve, build, url, now) => Commit(s, NodeActivity(s, n, seen, serve, build, url, now))
    case AMarkStale(now, stale) => MarkStaleOffline(s, now, stale)
    case ACreate(p, e, ssr, region, selected, chosen, now) => Commit(s, CreateDeployment(s, p, e, ssr, region, selected, chosen, now))
    case AEnqueue(n, target, now) => Commit(s, Enqueue(s, n, target, now))
    case AProcessJob(j, now, invalid) => if j < |s.jobs| then ProcessJob(s, j, now, invalid) else s
    case AAbortJob(j) => if j < |s.jobs| then AbortJob(s, j) else s
    case _ => if a.deployment < |s.deployments| then Commit(s, DeploymentStep(s, a)) else s
  }

  predicate OnDeployment(a: Action) {
    a.AClaim? || a.ABuildProgress? || a.AFinalizeReady? || a.AUnsuccessful? || a.AServeReport? || a.AActivate?
    || a.AReview? || a.ARepublish? || a.ARemovePublication? || a.AUpload?
  }

  function DeploymentStep(s: State, a: Action): Result<State, Failure>
    requires OnDeployment(a) && a.deployment < |s.deployments|
  {
    match a
    case AClaim(i, n) => ClaimBuild(s, i, n)
    case ABuildProgress(i, seen, to) => ReportBuildProgress(s, i, seen, to)
    case AFinalizeReady(i, mode) => FinalizeReady(s, i, mode)
    case AUnsuccessful(i, to) => TransitionUnsuccessfulBuild(s, i, to)
    case AServeReport(i, n, capable, status, job, mode) => ReportServeStatus(s, i, n, capable, status, job, mode)
    case AActivate(i, ready, seen, reason, mode, chosen, now) => ActivateDeployment(s, i, ready, seen, reason, mode, chosen, now)
    case AReview(i, approved, chosen, now) => ResolveReview(s, i, approved, chosen, now)
    case ARepublish(i, mode, chosen, now) => Republish(s, i, mode, chosen, now)
    case ARemovePublication(i, kind) => RemovePublication(s, i, kind)
    case AUpload(i, disk) => UploadArtifact(s, i, disk)
  }

  lemma StepOnDeployment(s: State, a: Action)
    requires OnDeployment(a)
    ensures Step(s, a) == if a.deployment < |s.deployments| then Commit(s, DeploymentStep(s, a)) else s
  {
  }

  /** Nodes, requests for deletion and failures of jobs leave the deployments alone. */
  lemma StepBesideDeployments(s: State, a: Action)
    requires !OnDeployment(a) && !a.ACreate? && !a.AProcessJob?
    ensures Step(s, a).deployments == s.deployments && |s.nodes| <= |Step(s, a).nodes|
    ensures forall n: nat :: n < |s.nodes| ==>
              Step(s, a).nodes[n].capacity == s.nodes[n].capacity && Step(s, a).nodes[n].deleted == s.nodes[n].deleted
    ensures forall n: nat :: |s.nodes| <= n < |Step(s, a).nodes| ==> !Step(s, a).nodes[n].deleted
  {
  }

  /** The state after these transactions, in commit order. */
  function RunFrom(s: State, actions: seq<Action>): State
    decreases |actions|
  {
    if actions == [] then s else RunFrom(Step(s, actions[0]), actions[1..])
  }

  /** The state after a run of transactions from empty tables. */
  function Run(actions: seq<Action>): State {
    RunFrom(INITIAL, actions)
  }

  lemma {:induction false} RunFromExtends(s: State, actions: seq<Action>, a: Action)
    ensures RunFrom(s, actions + [a]) == Step(RunFrom(s, actions), a)
    decreases |actions|
  {
    if actions == [] {
      assert RunFrom(Step(s, a), []) == Step(s, a);
    } else {
      assert (actions + [a])[1..] == actions[1..] + [a];
      RunFromExtends(Step(s, actions[0]), actions[1..], a);
    }
  }

  lemma RunExtends(actions: seq<Action>, a: Action)
    ensures Run(actions + [a]) == Step(Run(actions), a)
  {
    RunFromExtends(INITIAL, actions, a);
  }

  /** The last transaction of a run. */
  lemma RunEnds(actions: seq<Action>)
    requires actions != []
    ensures Run(actions) == Step(Run(actions[..|actions| - 1]), actions[|actions| - 1])
  {
    assert actions == actions[..|actions| - 1] + [actions[|actions| - 1]];
    RunExtends(actions[..|actions| - 1], actions[|actions| - 1]);
  }

  /** A creation adds one fresh deployment in a place the scheduler may grant, or changes nothing. */
  lemma CreateShape(s: State, a: Action) returns (d: Option<Deployment>)
    requires a.ACreate?
    ensures d.None? ==> Step(s, a) == s
    ensures d.Some? ==>
              && Step(s, a) == s.(deployments := s.deployments + [d.value]) && a.chosen.Some?
              && PlacementIsPossible(s, a.now, ServeResourcesFor(a.ssr), a.region_, a.selected, a.chosen.value)
              && d.value == NewDeployment(a.project, a.environment, a.ssr, a.chosen.value, a.now)
  {
    var r := CreateDeployment(s, a.project, a.environment, a.ssr, a.region_, a.selected, a.chosen, a.now);
    d := if r.Ok? then Some(NewDeployment(a.project, a.environment, a.ssr, a.chosen.value, a.now)) else None;
  }

  /** The row of a deployment whose release is queued, with the node it gets when it needs one. */
  function QueuedRow(d: Deployment, reason: ReleaseReason, chosen: Option<Placement>): Deployment
    requires (d.serveNode.None? || d.serve.Retired?) ==> chosen.Some?
  {
    (if d.serveNode.None? || d.serve.Retired? then Placed(d, chosen.value) else d).(pending := Some(reason))
  }

  /** A granted release request reconciles around an activation or around one queued row. */
  lemma RequestShape(s: State, i: nat, reason: ReleaseReason, chosen: Option<Placement>, now: int) returns (settled: State)
    requires i < |s.deployments| && RequestRelease(s, i, reason, chosen, now).Ok?
    ensures i < |settled.deployments| && SameEnvironment(settled.deployments[i], s.deployments[i])
    ensures RequestRelease(s, i, reason, chosen, now).value == ReconcileAround(settled, i)
    ensures !PendingElsewhere(s.deployments, i)
    ensures var d := s.deployments[i];
            if d.serveNode.Some? && d.serve.ServeReady? then Activate(s, i, reason) == Ok(settled)
            else && ((d.serveNode.None? || d.serve.Retired?) ==>
                      chosen.Some? && PlacementIsPossible(s, now, d.resources, Some(d.region), None, chosen.value))
                 && settled == SetRow(s, i, QueuedRow(d, reason, chosen))
  {
    var d := s.deployments[i];
    settled := if d.serveNode.Some? && d.serve.ServeReady? then Activate(s, i, reason).value
               else SetRow(s, i, QueuedRow(d, reason, chosen));
  }

  lemma RunPrefix(actions: seq<Action>, k: nat)
    requires k < |actions|
    ensures Run(actions[..k + 1]) == Step(Run(actions[..k]), actions[k])
  {
    assert actions[..k + 1] == actions[..k] + [actions[k]];
    RunExtends(actions[..k], actions[k]);
  }
}
